/** Token metadata indexed by hashed keys (common/domain/tokens.go). */
module Tokens {
  import opened Wrappers
  import opened Text
  import opened Vaas

  datatype TokenMetadata = TokenMetadata(tokenChain: ChainId, tokenAddress: string, symbol: string, coingeckoId: string, decimals: int)

  function MakeContractId(chain: ChainId, address: string): string {
    FormatUint(chain, 10) + "-" + address
  }

  function TokenId(m: TokenMetadata): string {
    FormatUint(m.tokenChain, 10) + "/" + m.tokenAddress
  }

  /** Distinct contracts have distinct keys, whatever the address text. */
  lemma ContractIdInjective(c: ChainId, a: string, d: ChainId, b: string)
    requires MakeContractId(c, a) == MakeContractId(d, b)
    ensures c == d && a == b
  {
    DecimalHasNo('-', c);
    DecimalHasNo('-', d);
    SeparatorSplits('-', FormatUint(c, 10), a, FormatUint(d, 10), b);
    FormatInjective(c, d, 10);
  }

  /** Nor do they share a price key. */
  lemma TokenIdInjective(m: TokenMetadata, n: TokenMetadata)
    requires TokenId(m) == TokenId(n)
    ensures m.tokenChain == n.tokenChain && m.tokenAddress == n.tokenAddress
  {
    DecimalHasNo('/', m.tokenChain);
    DecimalHasNo('/', n.tokenChain);
    SeparatorSplits('/', FormatUint(m.tokenChain, 10), m.tokenAddress, FormatUint(n.tokenChain, 10), n.tokenAddress);
    FormatInjective(m.tokenChain, n.tokenChain, 10);
  }

  predicate Names(m: TokenMetadata, chain: ChainId, address: string) {
    m.tokenChain == chain && m.tokenAddress == address
  }

  /** The last entry of a list for a contract: a scan from the end. */
  function ScanByAddress(list: seq<TokenMetadata>, chain: ChainId, address: string): Option<TokenMetadata> {
    if list == [] then None
    else
      var last := list[|list| - 1];
      if Names(last, chain, address) then Some(last)
      else ScanByAddress(list[..|list| - 1], chain, address)
  }

  /** The last entry with a CoinGecko identifier; entries without one are never found. */
  function ScanByCoingeckoId(list: seq<TokenMetadata>, id: string): Option<TokenMetadata> {
    if list == [] || id == "" then None
    else
      var last := list[|list| - 1];
      if last.coingeckoId == id then Some(last) else ScanByCoingeckoId(list[..|list| - 1], id)
  }

  /** The last entry for the contract stands at place i. */
  ghost predicate IsLastMatch(list: seq<TokenMetadata>, i: nat, chain: ChainId, address: string) {
    i < |list| && Names(list[i], chain, address) && NoMatchFrom(list, i + 1, chain, address)
  }

  ghost predicate NoMatchFrom(list: seq<TokenMetadata>, i: nat, chain: ChainId, address: string) {
    forall j :: i <= j < |list| ==> !Names(list[j], chain, address)
  }

  /** What the scan means: it answers with the entry at place i exactly when i is the last match,
      and with nothing exactly when no entry matches. */
  lemma {:induction false} ScanFindsLast(list: seq<TokenMetadata>, chain: ChainId, address: string, i: nat)
    ensures IsLastMatch(list, i, chain, address) ==> ScanByAddress(list, chain, address) == Some(list[i])
    ensures ScanByAddress(list, chain, address) == None <==> NoMatchFrom(list, 0, chain, address)
  {
    if list != [] {
      var front, last := list[..|list| - 1], list[|list| - 1];
      ScanFindsLast(front, chain, address, i);
      if Names(last, chain, address) {
        assert !NoMatchFrom(list, 0, chain, address);
      } else {
        assert NoMatchFrom(list, 0, chain, address) <==> NoMatchFrom(front, 0, chain, address);
        if IsLastMatch(list, i, chain, address) {
          assert i < |front|;
          assert IsLastMatch(front, i, chain, address);
        }
      }
    }
  }

  lemma ScanOneMore(list: seq<TokenMetadata>, i: nat, chain: ChainId, address: string, id: string)
    requires i < |list|
    ensures ScanByAddress(list[..i + 1], chain, address) ==
            if Names(list[i], chain, address) then Some(list[i]) else ScanByAddress(list[..i], chain, address)
    ensures ScanByCoingeckoId(list[..i + 1], id) ==
            if id != "" && list[i].coingeckoId == id then Some(list[i]) else ScanByCoingeckoId(list[..i], id)
  {
    assert list[..i + 1][..i] == list[..i];
  }

  class TokenProvider {
    const tokenMetadata: seq<TokenMetadata>
    var byContractId: map<string, TokenMetadata>
    var byCoingeckoId: map<string, TokenMetadata>

    /** Both indexes answer like a scan of the whole list. */
    ghost predicate Valid()
      reads this
    {
      IndexesMatch(|tokenMetadata|)
    }

    ghost predicate IndexesMatch(n: nat)
      reads this
    {
      && n <= |tokenMetadata|
      && (forall c: ChainId, a: string :: AnswerOf(byContractId, MakeContractId(c, a)) == ScanByAddress(tokenMetadata[..n], c, a))
      && (forall id :: AnswerOf(byCoingeckoId, id) == ScanByCoingeckoId(tokenMetadata[..n], id))
    }

    static function AnswerOf(index: map<string, TokenMetadata>, key: string): Option<TokenMetadata> {
      if key in index then Some(index[key]) else None
    }

    constructor (list: seq<TokenMetadata>)
      ensures tokenMetadata == list && Valid()
    {
      tokenMetadata := list;
      byContractId, byCoingeckoId := map[], map[];
      new;
      var i := 0;
      while i < |tokenMetadata|
        invariant 0 <= i <= |tokenMetadata| && IndexesMatch(i)
      {
        AddEntry(i);
        i := i + 1;
      }
    }

    /** The body of the constructor's loop. */
    method AddEntry(i: nat)
      requires i < |tokenMetadata| && IndexesMatch(i)
      modifies this
      ensures IndexesMatch(i + 1)
    {
      var entry := tokenMetadata[i];
      if entry.coingeckoId != "" {
        byCoingeckoId := byCoingeckoId[entry.coingeckoId := entry];
      }
      var contractId := MakeContractId(entry.tokenChain, entry.tokenAddress);
      if contractId != "" {
        byContractId := byContractId[contractId := entry];
      }
      forall c: ChainId, a: string
        ensures AnswerOf(byContractId, MakeContractId(c, a)) == ScanByAddress(tokenMetadata[..i + 1], c, a)
      {
        ScanOneMore(tokenMetadata, i, c, a, "");
        if MakeContractId(c, a) == contractId {
          ContractIdInjective(c, a, entry.tokenChain, entry.tokenAddress);
        }
      }
      forall id
        ensures AnswerOf(byCoingeckoId, id) == ScanByCoingeckoId(tokenMetadata[..i + 1], id)
      {
        ScanOneMore(tokenMetadata, i, entry.tokenChain, "", id);
      }
    }

    /** The hashed lookup agrees with a scan of the list for the contract. */
    method GetTokenByAddress(chain: ChainId, address: string) returns (m: Option<TokenMetadata>)
      requires Valid()
      ensures m == ScanByAddress(tokenMetadata, chain, address)
    {
      var key := MakeContractId(chain, address);
      m := if key in byContractId then Some(byContractId[key]) else None;
      assert m == AnswerOf(byContractId, key);
      assert tokenMetadata[..|tokenMetadata|] == tokenMetadata;
    }

    method GetTokenByCoingeckoId(id: string) returns (m: Option<TokenMetadata>)
      requires Valid()
      ensures m == ScanByCoingeckoId(tokenMetadata, id)
    {
      m := if id in byCoingeckoId then Some(byCoingeckoId[id]) else None;
      assert m == AnswerOf(byCoingeckoId, id);
      assert tokenMetadata[..|tokenMetadata|] == tokenMetadata;
    }
  }
}
