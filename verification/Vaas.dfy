/** Verified action approvals, as far as the services look at them, and the keys derived from
    them. */
module Vaas {
  import opened Text
  import opened Codecs

  type ChainId = x: int | 0 <= x < 0x1_0000

  type Address = bs: Bytes | |bs| == 32 witness seq(32, _ => 0)

  /** Wormhole's chain number of PythNet. */
  const PYTHNET: ChainId := 26

  datatype Vaa = Vaa(
    version: byte,
    guardianSetIndex: nat,
    timestamp: int,
    emitterChain: ChainId,
    emitterAddress: Address,
    sequence: uint64)

  /** "chain/address/sequence", the identifier of a VAA. */
  function MessageId(chain: ChainId, address: Address, sequence: nat): string {
    FormatUint(chain, 10) + "/" + HexEncode(address) + "/" + FormatUint(sequence, 10)
  }

  function IdOf(v: Vaa): string {
    MessageId(v.emitterChain, v.emitterAddress, v.sequence)
  }

  lemma JoinedSplits(sep: char, a: string, x: string, m: string, b: string, y: string, n: string)
    requires sep !in a && sep !in b && |x| == |y|
    requires a + [sep] + x + [sep] + m == b + [sep] + y + [sep] + n
    ensures a == b && x == y && m == n
  {
    var s, t := x + [sep] + m, y + [sep] + n;
    assert a + [sep] + x + [sep] + m == a + [sep] + s;
    assert b + [sep] + y + [sep] + n == b + [sep] + t;
    SeparatorSplits(sep, a, s, b, t);
    assert x == s[..|x|] && y == t[..|y|];
    assert m == s[|x| + 1..] && n == t[|y| + 1..];
  }

  /** Distinct VAAs never share an identifier. */
  lemma MessageIdInjective(c: ChainId, a: Address, m: nat, d: ChainId, b: Address, n: nat)
    requires MessageId(c, a, m) == MessageId(d, b, n)
    ensures c == d && a == b && m == n
  {
    DecimalHasNo('/', c);
    DecimalHasNo('/', d);
    JoinedSplits('/', FormatUint(c, 10), HexEncode(a), FormatUint(m, 10),
                 FormatUint(d, 10), HexEncode(b), FormatUint(n, 10));
    FormatInjective(c, d, 10);
    HexInjective(a, b);
    FormatInjective(m, n, 10);
  }
}
