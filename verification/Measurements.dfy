/** The two measurements of a transfer: the volume point, computed in place on big integers
    (analytics/metric/metric.go), and the transfer price document, computed in decimals
    (analytics/metric/mongo.go). */
module Measurements {
  import opened Wrappers
  import opened Text
  import opened Codecs
  import opened Numerals
  import opened Vaas
  import opened Tokens
  import opened Writes
  import opened BigInts
  import opened Decimals
  import opened PriceMath

  const UNSET: ChainId := 0

  type PriceTable = map<string, Decimal>

  // ---------------------------------------------------------------- tokens on the heap

  datatype TokenValue = TokenValue(
    appId: string,
    fromChain: ChainId,
    toChain: ChainId,
    tokenAddress: Address,
    tokenChain: ChainId,
    amount: int)

  class TransferredToken {
    const appId: string
    const fromChain: ChainId
    const toChain: ChainId
    const tokenAddress: Address
    const tokenChain: ChainId
    var amount: BigInt?

    constructor (appId: string, fromChain: ChainId, toChain: ChainId, tokenAddress: Address, tokenChain: ChainId, amount: BigInt?)
      ensures this.appId == appId && this.fromChain == fromChain && this.toChain == toChain
      ensures this.tokenAddress == tokenAddress && this.tokenChain == tokenChain && this.amount == amount
    {
      this.appId, this.fromChain, this.toChain := appId, fromChain, toChain;
      this.tokenAddress, this.tokenChain, this.amount := tokenAddress, tokenChain, amount;
    }

    function Value(): TokenValue
      reads this, amount
      requires amount != null
    {
      TokenValue(appId, fromChain, toChain, tokenAddress, tokenChain, amount.v)
    }

    /** A copy that shares no mutable part with the original. */
    static method Clone(t: TransferredToken?) returns (copy: TransferredToken?)
      ensures t == null <==> copy == null
      ensures t != null ==> fresh(copy) && (t.amount == null <==> copy.amount == null)
      ensures t != null && t.amount != null ==> fresh(copy.amount) && copy.Value() == t.Value()
    {
      if t == null {
        return null;
      }
      var amount: BigInt? := null;
      if t.amount != null {
        amount := new BigInt(t.amount.v);
      }
      copy := new TransferredToken(t.appId, t.fromChain, t.toChain, t.tokenAddress, t.tokenChain, amount);
    }
  }

  // ---------------------------------------------------------------- what is measured

  datatype VolumeFields =
    | Unpriced
    | Priced(symbol: string, amount: uint64, notional: uint64, volume: uint64)

  datatype Point = Point(
    appId: string,
    emitterChain: string,
    destinationChain: string,
    tokenAddress: string,
    tokenChain: string,
    fields: VolumeFields)

  datatype TransferPriceDoc = TransferPriceDoc(
    symbol: string,
    price: Decimal,
    tokenAmount: Decimal,
    usdAmount: Decimal,
    tokenChain: ChainId,
    tokenAddress: string,
    coingeckoId: string)

  function MetadataOf(t: TokenValue, list: seq<TokenMetadata>): Option<TokenMetadata> {
    ScanByAddress(list, t.tokenChain, HexEncode(t.tokenAddress))
  }

  function PointWith(emitterChain: ChainId, t: TokenValue, fields: VolumeFields): Point {
    Point(t.appId, FormatUint(emitterChain, 10), FormatUint(t.toChain, 10), HexEncode(t.tokenAddress), FormatUint(t.tokenChain, 10), fields)
  }

  predicate Measured(emitterChain: ChainId) {
    emitterChain != PYTHNET && emitterChain != UNSET
  }

  /** The volume point of an unscaled token; None where no point is made. */
  function VolumePoint(emitterChain: ChainId, t: TokenValue, list: seq<TokenMetadata>, prices: PriceTable): Option<Point> {
    if !Measured(emitterChain) then None
    else
      match MetadataOf(t, list)
      case None => Some(PointWith(emitterChain, t, Unpriced))
      case Some(m) =>
        if TokenId(m) !in prices then None
        else
          var price := prices[TokenId(m)];
          Some(PointWith(emitterChain, t, Priced(m.symbol, Low64(NormalizedAmount(t.amount, m.decimals)),
                                                 Low64(NotionalUnits(price)), Low64(VolumeUnits(t.amount, m.decimals, price)))))
  }

  /** The transfer price document of an unscaled token; None where none is written. */
  function TransferPrice(emitterChain: ChainId, t: TokenValue, list: seq<TokenMetadata>, prices: PriceTable): Option<TransferPriceDoc> {
    if emitterChain == PYTHNET then None
    else
      match MetadataOf(t, list)
      case None => None
      case Some(m) =>
        if TokenId(m) !in prices then None
        else
          var price := prices[TokenId(m)];
          Some(TransferPriceDoc(m.symbol, Truncate(price, 8), Truncate(TokenAmount(t.amount, m.decimals), 8),
                                Truncate(UsdAmount(price, t.amount, m.decimals), 8), t.tokenChain, HexEncode(t.tokenAddress), m.coingeckoId))
  }

  /** What the volume path leaves in the token it was given. */
  function AmountAfter(emitterChain: ChainId, t: TokenValue, list: seq<TokenMetadata>): int {
    if Measured(emitterChain) && MetadataOf(t, list).Some? then NormalizedAmount(t.amount, MetadataOf(t, list).value.decimals)
    else t.amount
  }

  // ---------------------------------------------------------------- the computations

  /** Scales the token's amount where it lies, before it is known whether there is a price. */
  method MakePointForVaaVolume(emitterChain: ChainId, token: TransferredToken?, provider: TokenProvider, prices: PriceTable)
    returns (point: Option<Point>)
    requires provider.Valid() && (token != null ==> token.amount != null)
    modifies if token == null then {} else {token.amount}
    ensures token == null ==> point == None
    ensures token != null ==> token.amount == old(token.amount)
    ensures token != null ==> point == VolumePoint(emitterChain, old(token.Value()), provider.tokenMetadata, prices)
    ensures token != null ==> token.amount.v == AmountAfter(emitterChain, old(token.Value()), provider.tokenMetadata)
  {
    if emitterChain == PYTHNET || emitterChain == UNSET || token == null {
      return None;
    }
    ghost var value := token.Value();
    var meta := provider.GetTokenByAddress(token.tokenChain, HexEncode(token.tokenAddress));
    assert meta == MetadataOf(value, provider.tokenMetadata);
    if meta == None {
      return Some(PointWith(emitterChain, token.Value(), Unpriced));
    }
    var m := meta.value;
    var amount := token.amount;
    if m.decimals < 8 {
      var factor := new BigInt(Power(10, 8 - m.decimals));
      amount.Mul(amount, factor);
    }
    assert amount.v == NormalizedAmount(value.amount, m.decimals);
    if TokenId(m) !in prices {
      return None;
    }
    var price := prices[TokenId(m)];
    var notional := new BigInt(NotionalUnits(price));
    var units := new BigInt(UNITS);
    var volume := new BigInt(0);
    volume.Mul(amount, notional);
    volume.Div(volume, units);
    assert volume.v == VolumeUnits(value.amount, m.decimals, price);
    point := Some(PointWith(emitterChain, token.Value(), Priced(m.symbol, Low64(amount.v), Low64(notional.v), Low64(volume.v))));
  }

  datatype Lookup = Found(token: TransferredToken?) | UnknownToken | LookupFailed

  class Metric {
    const tokenProvider: TokenProvider
    var points: seq<Point>
    var transferPrices: map<string, TransferPriceDoc>

    constructor (tokenProvider: TokenProvider)
      ensures this.tokenProvider == tokenProvider && points == [] && transferPrices == map[]
    {
      this.tokenProvider, points, transferPrices := tokenProvider, [], map[];
    }

    /** Reads the token's amount into decimals and leaves the token alone. */
    method UpsertTransferPrices(v: Vaa, token: TransferredToken?, prices: PriceTable, write: Write) returns (ok: bool)
      requires tokenProvider.Valid() && (token != null ==> token.amount != null)
      modifies this`transferPrices
      ensures var doc := if token == null then None
                         else TransferPrice(v.emitterChain, token.Value(), tokenProvider.tokenMetadata, prices);
              && transferPrices == (if doc.Some? && !write.Rejected? then old(transferPrices)[IdOf(v) := doc.value] else old(transferPrices))
              && ok == (doc == None || write == Acked)
    {
      if v.emitterChain == PYTHNET || token == null {
        return true;
      }
      var meta := tokenProvider.GetTokenByAddress(token.tokenChain, HexEncode(token.tokenAddress));
      if meta == None || TokenId(meta.value) !in prices {
        return true;
      }
      var m, price := meta.value, prices[TokenId(meta.value)];
      var tokenAmount := Decimal(token.amount.v, if m.decimals > 8 then -8 else -m.decimals);
      var usdAmount := Decimals.Mul(tokenAmount, price);
      var doc := TransferPriceDoc(m.symbol, Truncate(price, 8), Truncate(tokenAmount, 8), Truncate(usdAmount, 8),
                                  token.tokenChain, HexEncode(token.tokenAddress), m.coingeckoId);
      if write.Applied() {
        transferPrices := transferPrices[IdOf(v) := doc];
      }
      ok := write == Acked;
    }

    method VolumeMeasurement(v: Vaa, token: TransferredToken?, prices: PriceTable, write: Write) returns (ok: bool)
      requires tokenProvider.Valid() && (token != null ==> token.amount != null)
      modifies this`points, if token == null then {} else {token.amount}
      ensures var point := if token == null then None
                           else VolumePoint(v.emitterChain, old(token.Value()), tokenProvider.tokenMetadata, prices);
              && points == (if point.Some? && !write.Rejected? then old(points) + [point.value] else old(points))
              && ok == (point == None || write == Acked)
    {
      var point := MakePointForVaaVolume(v.emitterChain, token, tokenProvider, prices);
      if point == None {
        return true;
      }
      if write.Applied() {
        points := points + [point.value];
      }
      ok := write == Acked;
    }

    /** Both measurements are taken of the amount the token came with, and the token keeps it,
        although the volume path scales in place: each path works on its own deep copy. The caller
        may find different prices at the two reads of the price cache. */
    method Push(v: Vaa, isSigned: bool, lookup: Lookup, countsWritten: bool, volumePrices: PriceTable, documentPrices: PriceTable,
                pointWrite: Write, documentWrite: Write) returns (ok: bool)
      requires tokenProvider.Valid()
      requires lookup.Found? && lookup.token != null ==> lookup.token.amount != null
      modifies this`points, this`transferPrices
      ensures lookup.Found? && lookup.token != null ==>
                lookup.token.amount == old(lookup.token.amount) && lookup.token.Value() == old(lookup.token.Value())
      ensures var token := if lookup.Found? then lookup.token else null;
              var measured := v.emitterChain != PYTHNET && token != null;
              var list := tokenProvider.tokenMetadata;
              var point := if measured && isSigned then VolumePoint(v.emitterChain, token.Value(), list, volumePrices) else None;
              var doc := if measured then TransferPrice(v.emitterChain, token.Value(), list, documentPrices) else None;
              && points == (if point.Some? && !pointWrite.Rejected? then old(points) + [point.value] else old(points))
              && transferPrices == (if doc.Some? && !documentWrite.Rejected? then old(transferPrices)[IdOf(v) := doc.value] else old(transferPrices))
      ensures var token := if lookup.Found? then lookup.token else null;
              var measured := v.emitterChain != PYTHNET && token != null;
              var list := tokenProvider.tokenMetadata;
              ok == ((lookup.LookupFailed? ==> v.emitterChain == PYTHNET) && (isSigned ==> countsWritten)
                     && (measured && isSigned && pointWrite != Acked ==> VolumePoint(v.emitterChain, token.Value(), list, volumePrices) == None)
                     && (measured && documentWrite != Acked ==> TransferPrice(v.emitterChain, token.Value(), list, documentPrices) == None))
    {
      var counted := !isSigned || countsWritten;
      var volumeOk, documentOk := true, true;
      if v.emitterChain != PYTHNET {
        if lookup.LookupFailed? {
          return false;
        }
        if lookup.Found? && lookup.token != null {
          var token := lookup.token;
          if isSigned {
            var first := TransferredToken.Clone(token);
            volumeOk := VolumeMeasurement(v, first, volumePrices, pointWrite);
          }
          var second := TransferredToken.Clone(token);
          documentOk := UpsertTransferPrices(v, second, documentPrices, documentWrite);
        }
      }
      ok := counted && volumeOk && documentOk;
    }
  }

  // ---------------------------------------------------------------- what point and document say

  /** A point names the chains and the address it is about, each readable from its own tag. */
  ghost predicate Describes(p: Point, emitterChain: ChainId, t: TokenValue) {
    && p.appId == t.appId
    && ParseUint(p.emitterChain, 10) == Ok(emitterChain)
    && ParseUint(p.destinationChain, 10) == Ok(t.toChain)
    && HexDecode(p.tokenAddress) == Ok(t.tokenAddress)
    && ParseUint(p.tokenChain, 10) == Ok(t.tokenChain)
  }

  /** A point is made unless the emitter chain is PythNet or unset or a known token has no price; it says
      where the transfer came from and went, and carries the token's symbol exactly when the token is
      known. */
  lemma PointDescribes(emitterChain: ChainId, t: TokenValue, list: seq<TokenMetadata>, prices: PriceTable)
    ensures var point, found := VolumePoint(emitterChain, t, list, prices), ScanByAddress(list, t.tokenChain, HexEncode(t.tokenAddress));
            && (point.Some? <==> emitterChain != PYTHNET && emitterChain != 0 && (found.Some? ==> TokenId(found.value) in prices))
            && (point.Some? ==>
                  && Describes(point.value, emitterChain, t)
                  && (point.value.fields.Priced? <==> found.Some?)
                  && (found.Some? ==> point.value.fields.symbol == found.value.symbol))
  {
    hide ScanByAddress, HexDecode, ParseUint, VolumeUnits, NotionalUnits, NormalizedAmount;
    ParseFormat(emitterChain, 10);
    ParseFormat(t.toChain, 10);
    ParseFormat(t.tokenChain, 10);
    HexRoundTrip(t.tokenAddress);
  }

  function AtLeast(n: int, bound: int): int {
    if n < bound then bound else n
  }

  /** A document is written unless the emitter chain is PythNet or the token is unknown or has no price;
      it names the token and is the same for every emitter chain. */
  lemma DocumentDescribes(emitterChain: ChainId, t: TokenValue, list: seq<TokenMetadata>, prices: PriceTable)
    ensures var doc, found := TransferPrice(emitterChain, t, list, prices), ScanByAddress(list, t.tokenChain, HexEncode(t.tokenAddress));
            && (doc.Some? <==> emitterChain != PYTHNET && found.Some? && TokenId(found.value) in prices)
            && (doc.Some? ==>
                  && doc.value.tokenChain == t.tokenChain && HexDecode(doc.value.tokenAddress) == Ok(t.tokenAddress)
                  && doc.value.symbol == found.value.symbol && doc.value.coingeckoId == found.value.coingeckoId
                  && doc.value.price.exponent == AtLeast(prices[TokenId(found.value)].exponent, -8)
                  && doc.value.tokenAmount.exponent == AtLeast(0 - found.value.decimals, -8)
                  && doc.value.usdAmount.exponent ==
                     AtLeast(AtLeast(0 - found.value.decimals, -8) + prices[TokenId(found.value)].exponent, -8))
  {
    hide ScanByAddress, HexDecode;
    HexRoundTrip(t.tokenAddress);
  }

  // ---------------------------------------------------------------- agreement

  /** One transfer at one price: a priced point and a document come together, they state the same
      price and amount, and their USD values agree up to one unit per started token, as long as nothing
      overflows 64 bits; they are equal when the price has at most eight decimals. */
  lemma MeasurementsAgree(emitterChain: ChainId, t: TokenValue, list: seq<TokenMetadata>, prices: PriceTable)
    requires t.amount >= 0 && Measured(emitterChain)
    requires MetadataOf(t, list).Some? && TokenId(MetadataOf(t, list).value) in prices
    requires prices[TokenId(MetadataOf(t, list).value)].coefficient >= 0
    ensures var point, doc := VolumePoint(emitterChain, t, list, prices), TransferPrice(emitterChain, t, list, prices);
            var price := prices[TokenId(MetadataOf(t, list).value)];
            && point.Some? && point.value.fields.Priced? && doc.Some?
            && InUnits(doc.value.tokenAmount) >= 0 && InUnits(doc.value.usdAmount) >= 0
            && InUnits(doc.value.price) >= 0
            && (InUnits(doc.value.price) < UINT64_BOUND ==> point.value.fields.notional == InUnits(doc.value.price))
            && (InUnits(doc.value.tokenAmount) < UINT64_BOUND ==> point.value.fields.amount == InUnits(doc.value.tokenAmount))
            && (InUnits(doc.value.usdAmount) < UINT64_BOUND ==>
                  && 0 <= InUnits(doc.value.usdAmount) - point.value.fields.volume <= CeilDiv(InUnits(doc.value.tokenAmount), UNITS)
                  && (DroppedDigits(price) == 0 ==> point.value.fields.volume == InUnits(doc.value.usdAmount)))
  {
    hide VolumeUnits, UsdAmount, NotionalUnits, DroppedDigits, ScanByAddress, CeilDiv;
    var m := MetadataOf(t, list).value;
    var price := prices[TokenId(m)];
    VolumeAgreesWithUsd(t.amount, m.decimals, price);
    VolumeNatural(t.amount, m.decimals, price);
    AmountInUnits(t.amount, m.decimals);
    NormalizedNatural(t.amount, m.decimals);
    NotionalInUnits(price);
    LowBits(NotionalUnits(price), 0);
    LowBits(NormalizedAmount(t.amount, m.decimals), 0);
    LowBits(VolumeUnits(t.amount, m.decimals, price), 0);
  }

  lemma AmountInUnits(amount: int, decimals: int)
    ensures InUnits(Truncate(TokenAmount(amount, decimals), 8)) == NormalizedAmount(amount, decimals)
  {
  }

  lemma NotionalInUnits(price: Decimal)
    requires price.coefficient >= 0
    ensures InUnits(Truncate(price, 8)) == NotionalUnits(price) >= 0
  {
    NotionalIsScale(price);
    UnitsOfTruncated(price);
    RescaleIsScale(price, -8);
  }

  lemma VolumeNatural(amount: nat, decimals: int, price: Decimal)
    requires price.coefficient >= 0
    ensures VolumeUnits(amount, decimals, price) >= 0
  {
    NormalizedNatural(amount, decimals);
    NotionalIsScale(price);
    MulMono(0, NormalizedAmount(amount, decimals), 0, NotionalUnits(price));
  }

  /** Why the copies matter: scaling a second time gives the same amount only where scaling does
      nothing, for amount zero or a token with at least eight decimals. */
  lemma ScalingAgainIff(amount: int, decimals: int)
    ensures NormalizedAmount(NormalizedAmount(amount, decimals), decimals) == NormalizedAmount(amount, decimals)
            <==> amount == 0 || decimals >= 8
  {
    if decimals < 8 {
      PowerMono(10, 1, 8 - decimals);
      PowersOfTen();
      FixedOnlyAtZero(amount, Power(10, 8 - decimals));
    }
  }

  lemma FixedOnlyAtZero(x: int, p: nat)
    requires p >= 10
    ensures (x * p) * p == x * p <==> x == 0
  {
    if x > 0 {
      MulMono(1, x, 1, p);
      MulMono(x * p, x * p, 2, p);
    } else if x < 0 {
      MulMono(1, -x, 1, p);
      MulMono((-x) * p, (-x) * p, 2, p);
      assert ((-x) * p) * p == -((x * p) * p);
      assert (-x) * p == -(x * p);
    }
  }
}
