/** The per-emitter maximum sequence kept in Redis as a decimal string
    (fly/notifier/vaa_last_sequence.go). */
module LastSequence {
  import opened Wrappers
  import opened Numerals
  import opened Text
  import opened Codecs
  import opened Vaas
  import opened Writes

  // ---------------------------------------------------------------- string order

  /** Byte-wise order of strings, which Lua's `>` uses. */
  predicate StringLess(a: string, b: string) {
    if b == "" then false
    else if a == "" then true
    else a[0] < b[0] || (a[0] == b[0] && StringLess(a[1..], b[1..]))
  }

  predicate IsDecimal(s: string) {
    s != "" && forall i :: 0 <= i < |s| ==> '0' <= s[i] <= '9'
  }

  lemma DecimalIsNumeral(s: string)
    requires forall i :: 0 <= i < |s| ==> '0' <= s[i] <= '9'
    ensures IsNumeral(10, s)
    ensures forall i :: 0 <= i < |s| ==> DigitsOf(10, s)[i] == s[i] as int - '0' as int
  {
  }

  lemma {:induction false} StringLessIsLexLess(a: string, b: string)
    requires forall i :: 0 <= i < |a| ==> '0' <= a[i] <= '9'
    requires forall i :: 0 <= i < |b| ==> '0' <= b[i] <= '9'
    ensures IsNumeral(10, a) && IsNumeral(10, b)
    ensures StringLess(a, b) <==> LexLess(DigitsOf(10, a), DigitsOf(10, b))
  {
    DecimalIsNumeral(a);
    DecimalIsNumeral(b);
    if a != "" && b != "" {
      StringLessIsLexLess(a[1..], b[1..]);
      assert DigitsOf(10, a)[1..] == DigitsOf(10, a[1..]);
      assert DigitsOf(10, b)[1..] == DigitsOf(10, b[1..]);
    }
  }

  /** The script's order: longer first, then byte-wise. */
  predicate ScriptGreater(a: string, b: string) {
    |a| > |b| || (|a| == |b| && StringLess(b, a))
  }

  lemma PrintedIsDecimal(n: nat)
    ensures IsDecimal(FormatUint(n, 10))
  {
    FormatShape(n, 10);
    forall i | 0 <= i < |FormatUint(n, 10)|
      ensures '0' <= FormatUint(n, 10)[i] <= '9'
    {
      FormatAlphabet(n, 10, i);
    }
  }

  lemma LongerIsGreater(m: nat, n: nat)
    requires |FormatUint(m, 10)| < |FormatUint(n, 10)|
    ensures m < n
  {
    FormatShape(m, 10);
    FormatShape(n, 10);
    DigitsCanonical(10, n);
    ShorterIsLess(10, DigitsOf(10, FormatUint(m, 10)), DigitsOf(10, FormatUint(n, 10)));
  }

  /** On printed numbers the script's order is numeric order. */
  lemma ScriptOrderIsNumeric(m: nat, n: nat)
    ensures ScriptGreater(FormatUint(m, 10), FormatUint(n, 10)) <==> m > n
  {
    hide FormatUint, Value, DigitsOf, IsNumeral, StringLess, LexLess;
    var a, b := FormatUint(m, 10), FormatUint(n, 10);
    if |a| > |b| {
      LongerIsGreater(n, m);
    } else if |a| < |b| {
      LongerIsGreater(m, n);
    } else {
      PrintedIsDecimal(m);
      PrintedIsDecimal(n);
      FormatShape(m, 10);
      FormatShape(n, 10);
      StringLessIsLexLess(b, a);
      LexIsNumeric(10, DigitsOf(10, b), DigitsOf(10, a));
    }
  }

  // ---------------------------------------------------------------- strings of other writers

  function NumberOf(s: string): nat
    requires IsDecimal(s)
  {
    DecimalIsNumeral(s);
    Value(10, DigitsOf(10, s))
  }

  predicate AllNines(s: string) {
    forall i :: 0 <= i < |s| ==> s[i] == '9'
  }

  /** Against this stored string the script decides every printed number as arithmetic would. */
  ghost predicate OrdersRightly(s: string)
    requires IsDecimal(s)
  {
    forall n: nat :: ScriptGreater(FormatUint(n, 10), s) <==> n > NumberOf(s)
  }

  lemma PrintedDigit(c: char)
    requires '0' <= c <= '9'
    ensures DigitChar(c as int - '0' as int) == c
  {
  }

  lemma NumberOfZero()
    ensures NumberOf("0") == 0
  {
    assert DigitsOf(10, "0") == [] + [0];
    ValueAppend(10, [], 0);
  }

  /** The digits of a decimal string, printed, are the string. */
  lemma PrintedDigits(s: string, t: string)
    requires IsDecimal(s) && |t| == |s| && IsNumeral(10, s)
    requires forall i :: 0 <= i < |s| ==> t[i] == DigitChar(DigitsOf(10, s)[i])
    ensures t == s
  {
    forall i | 0 <= i < |s|
      ensures t[i] == s[i]
    {
      PrintedDigit(s[i]);
    }
  }

  /** A decimal string without a superfluous zero is the printed form of its number. */
  lemma CanonicalIsPrinted(s: string)
    requires IsDecimal(s) && (|s| == 1 || s[0] != '0')
    ensures FormatUint(NumberOf(s), 10) == s
  {
    if s == "0" {
      NumberOfZero();
    } else {
      hide Value, Digits, DigitsOf, DigitChar;
      DecimalIsNumeral(s);
      var ds := DigitsOf(10, s);
      assert ds[0] != 0;
      CanonicalRoundTrip(10, ds);
      ValuePositive(10, ds);
      PrintedDigits(s, FormatUint(NumberOf(s), 10));
    }
  }

  lemma {:induction false} NinesAreLargest(ds: seq<nat>)
    requires AllBelow(10, ds)
    ensures Value(10, ds) <= Power(10, |ds|) - 1
    ensures Value(10, ds) == Power(10, |ds|) - 1 <==> forall i :: 0 <= i < |ds| ==> ds[i] == 9
  {
    if ds != [] {
      var front := ds[..|ds| - 1];
      NinesAreLargest(front);
      assert ds == front + [ds[|ds| - 1]];
    }
  }

  /** A printed number has more than k digits exactly from 10^k on. */
  lemma PrintedLength(n: nat, k: nat)
    requires k > 0
    ensures |FormatUint(n, 10)| > k <==> n >= Power(10, k)
  {
    hide Value, Digits, Power;
    PowerPositive(10, k);
    if n > 0 {
      var ds := Digits(10, n);
      DigitsCanonical(10, n);
      ValueOfDigits(10, n);
      ValueBelow(10, ds);
      ValueAtLeast(10, ds);
      if |ds| > k {
        PowerMono(10, k, |ds| - 1);
      } else {
        PowerMono(10, |ds|, k);
      }
    }
  }

  /** Against a string with a superfluous zero only the number of digits counts. */
  lemma PaddedComparesLengths(s: string, n: nat)
    requires IsDecimal(s) && |s| > 1 && s[0] == '0'
    ensures ScriptGreater(FormatUint(n, 10), s) <==> n >= Power(10, |s| - 1)
  {
    var t := FormatUint(n, 10);
    PrintedLength(n, |s| - 1);
    if |t| == |s| {
      DigitsCanonical(10, n);
      FormatShape(n, 10);
      PrintedIsDecimal(n);
      assert DigitsOf(10, t)[0] != 0;
      assert s[0] < t[0];
    }
  }

  /** How large the number of such a string is. */
  lemma PaddedNumber(s: string)
    requires IsDecimal(s) && |s| > 1 && s[0] == '0'
    ensures NumberOf(s) < Power(10, |s| - 1)
    ensures NumberOf(s) == Power(10, |s| - 1) - 1 <==> AllNines(s[1..])
  {
    DecimalIsNumeral(s);
    var ds := DigitsOf(10, s);
    LeadingZeros(10, 1, ds[1..]);
    assert ds == seq(1, _ => 0) + ds[1..];
    NinesAreLargest(ds[1..]);
    assert forall i :: 0 <= i < |s| - 1 ==> ds[1..][i] == s[1..][i] as int - '0' as int;
  }

  /** Only another writer can store a string that strconv would not print. The script still orders
      every printed number rightly against a decimal string if and only if the string has no
      superfluous leading zero, or is a zero followed by nines only. */
  lemma OrdersRightlyIff(s: string)
    requires IsDecimal(s)
    ensures OrdersRightly(s) <==> |s| == 1 || s[0] != '0' || AllNines(s[1..])
  {
    if |s| == 1 || s[0] != '0' {
      CanonicalIsPrinted(s);
      forall n: nat
        ensures ScriptGreater(FormatUint(n, 10), s) <==> n > NumberOf(s)
      {
        ScriptOrderIsNumeric(n, NumberOf(s));
      }
    } else {
      hide ScriptGreater, NumberOf;
      PaddedNumber(s);
      forall n: nat
        ensures ScriptGreater(FormatUint(n, 10), s) <==> n >= Power(10, |s| - 1)
      {
        PaddedComparesLengths(s, n);
      }
      if !AllNines(s[1..]) {
        var n := NumberOf(s) + 1;
        assert !(ScriptGreater(FormatUint(n, 10), s) <==> n > NumberOf(s));
      }
    }
  }

  // ---------------------------------------------------------------- keys

  const SUFFIX := "wormscan:vaa-max-sequence"

  /** The prefix the constructor settles on. */
  function FullPrefix(prefix: string): string {
    if prefix == "" then SUFFIX else prefix + ":" + SUFFIX
  }

  function SequenceKey(fullPrefix: string, chain: ChainId, address: Address): string {
    fullPrefix + ":" + FormatUint(chain, 10) + ":" + HexEncode(address)
  }

  lemma PrefixedSplits(p: string, sep: char, a: string, x: string, b: string, y: string)
    requires sep !in a && sep !in b && p + [sep] + a + [sep] + x == p + [sep] + b + [sep] + y
    ensures a == b && x == y
  {
    var s, t := a + [sep] + x, b + [sep] + y;
    assert p + [sep] + a + [sep] + x == p + [sep] + s;
    assert p + [sep] + b + [sep] + y == p + [sep] + t;
    assert s == (p + [sep] + s)[|p| + 1..] && t == (p + [sep] + t)[|p| + 1..];
    SeparatorSplits(sep, a, x, b, y);
  }

  /** Distinct emitters use distinct keys. */
  lemma SequenceKeyInjective(p: string, c: ChainId, a: Address, d: ChainId, b: Address)
    requires SequenceKey(p, c, a) == SequenceKey(p, d, b)
    ensures c == d && a == b
  {
    DecimalHasNo(':', c);
    DecimalHasNo(':', d);
    PrefixedSplits(p, ':', FormatUint(c, 10), HexEncode(a), FormatUint(d, 10), HexEncode(b));
    FormatInjective(c, d, 10);
    HexInjective(a, b);
  }

  type Keys = map<string, string>

  /** The number stored for an emitter, if it is the printed form of one. */
  ghost predicate Holds(keys: Keys, key: string, n: nat) {
    key in keys && keys[key] == FormatUint(n, 10)
  }

  function Max(m: nat, n: nat): nat {
    if m < n then n else m
  }

  // ---------------------------------------------------------------- the script

  /** The key store after the script ran for (key, arg), and its reply. */
  function ScriptEffect(keys: Keys, key: string, arg: string): (Keys, Result<string>) {
    if !IsDecimal(arg) then (keys, Err("not a valid number"))
    else if key in keys && !ScriptGreater(arg, keys[key]) then (keys, Ok(keys[key]))
    else (keys[key := arg], Ok(arg))
  }

  /** On a printed number the script stores and replies the larger of the two. */
  lemma ScriptKeepsMaximum(keys: Keys, key: string, n: nat)
    ensures var (keys', reply) := ScriptEffect(keys, key, FormatUint(n, 10));
            && (key !in keys ==> Holds(keys', key, n) && reply == Ok(FormatUint(n, 10)))
            && (forall m: nat :: Holds(keys, key, m) ==>
                  Holds(keys', key, Max(m, n)) && reply == Ok(FormatUint(Max(m, n), 10)))
            && (forall k :: k != key ==> (k in keys' <==> k in keys) && (k in keys ==> keys'[k] == keys[k]))
  {
    PrintedIsDecimal(n);
    forall m: nat | Holds(keys, key, m)
      ensures var (keys', reply) := ScriptEffect(keys, key, FormatUint(n, 10));
              Holds(keys', key, Max(m, n)) && reply == Ok(FormatUint(Max(m, n), 10))
    {
      ScriptOrderIsNumeric(n, m);
    }
  }

  /** The script refuses exactly the texts that are no decimal number, and then changes nothing. */
  lemma ScriptRefusesIff(keys: Keys, key: string, arg: string)
    ensures ScriptEffect(keys, key, arg).1.Err? <==> arg == "" || exists i :: 0 <= i < |arg| && !('0' <= arg[i] <= '9')
    ensures ScriptEffect(keys, key, arg).1.Err? ==> ScriptEffect(keys, key, arg).0 == keys
  {
  }

  // ---------------------------------------------------------------- runs of Notify

  datatype Call = Call(vaa: Vaa, write: Write)

  function NotifyEffect(keys: Keys, p: string, call: Call): (Keys, bool) {
    if call.write.Rejected? then (keys, false)
    else
      var (keys', reply) := ScriptEffect(keys, SequenceKey(p, call.vaa.emitterChain, call.vaa.emitterAddress),
                                         FormatUint(call.vaa.sequence, 10));
      (keys', reply.Ok? && call.write.Acked?)
  }

  /** A notification reports success exactly when the call to the store was acknowledged, whatever is
      stored under the key and in whatever order sequences arrive. */
  lemma NotifySucceedsIff(keys: Keys, p: string, v: Vaa, write: Write)
    ensures NotifyEffect(keys, p, Call(v, write)).1 <==> write.Acked?
  {
    PrintedIsDecimal(v.sequence);
  }

  function NotifyAll(keys: Keys, p: string, calls: seq<Call>): Keys {
    if calls == [] then keys
    else NotifyEffect(NotifyAll(keys, p, calls[..|calls| - 1]), p, calls[|calls| - 1]).0
  }

  predicate Hits(call: Call, c: ChainId, a: Address) {
    call.write.Applied() && call.vaa.emitterChain == c && call.vaa.emitterAddress == a
  }

  /** The sequences of the emitter whose notification reached the store. */
  ghost function Reaching(calls: seq<Call>, c: ChainId, a: Address): set<nat> {
    set call | call in calls && Hits(call, c, a) :: call.vaa.sequence
  }

  ghost predicate IsMaximum(s: set<nat>, n: nat) {
    n in s && forall m :: m in s ==> m <= n
  }

  lemma {:induction false} NotifyAllPrepends(keys: Keys, p: string, call: Call, calls: seq<Call>)
    ensures NotifyAll(keys, p, [call] + calls) == NotifyAll(NotifyEffect(keys, p, call).0, p, calls)
  {
    hide NotifyEffect;
    if calls == [] {
      assert ([call] + calls)[..0] == [];
    } else {
      assert ([call] + calls)[..|calls|] == [call] + calls[..|calls| - 1];
      NotifyAllPrepends(keys, p, call, calls[..|calls| - 1]);
    }
  }

  lemma ReachingExtends(calls: seq<Call>, c: ChainId, a: Address)
    requires calls != []
    ensures var last := calls[|calls| - 1];
            Reaching(calls, c, a) ==
            Reaching(calls[..|calls| - 1], c, a) + (if Hits(last, c, a) then {last.vaa.sequence} else {})
  {
    var front, last := calls[..|calls| - 1], calls[|calls| - 1];
    assert calls == front + [last];
    assert forall call :: call in calls <==> call in front || call == last;
    var s := Reaching(front, c, a) + (if Hits(last, c, a) then {last.vaa.sequence} else {});
    forall n | n in s
      ensures n in Reaching(calls, c, a)
    {
    }
  }

  /** A key is absent when no sequence reached the store, and otherwise holds the decimal of the
      largest one. */
  ghost predicate KeyTracks(keys: Keys, key: string, reaching: set<nat>) {
    && (key in keys <==> reaching != {})
    && (key in keys ==> exists n: nat :: Holds(keys, key, n))
    && (forall n: nat :: Holds(keys, key, n) <==> IsMaximum(reaching, n))
  }

  /** After any finite sequence of notifications, in any order, with duplicates, failures and lost
      acknowledgements, every emitter's key holds the decimal of the largest sequence that reached
      the store for that emitter. */
  lemma {:induction false} StoredIsMaximum(calls: seq<Call>, p: string, c: ChainId, a: Address)
    ensures KeyTracks(NotifyAll(map[], p, calls), SequenceKey(p, c, a), Reaching(calls, c, a))
  {
    if calls != [] {
      var front, last := calls[..|calls| - 1], calls[|calls| - 1];
      StoredIsMaximum(front, p, c, a);
      ReachingExtends(calls, c, a);
      if Hits(last, c, a) {
        HitKeepsTracking(NotifyAll(map[], p, front), Reaching(front, c, a), p, last, c, a);
      } else {
        OtherCallKeepsTracking(NotifyAll(map[], p, front), Reaching(front, c, a), p, last, c, a);
      }
    }
  }

  lemma OtherCallKeepsKey(keys: Keys, p: string, call: Call, c: ChainId, a: Address)
    requires !Hits(call, c, a)
    ensures var keys', key := NotifyEffect(keys, p, call).0, SequenceKey(p, c, a);
            (key in keys' <==> key in keys) && (key in keys ==> keys'[key] == keys[key])
  {
    if call.write.Applied() && SequenceKey(p, call.vaa.emitterChain, call.vaa.emitterAddress) == SequenceKey(p, c, a) {
      SequenceKeyInjective(p, call.vaa.emitterChain, call.vaa.emitterAddress, c, a);
    }
  }

  lemma OtherCallKeepsTracking(keys: Keys, reaching: set<nat>, p: string, call: Call, c: ChainId, a: Address)
    requires !Hits(call, c, a) && KeyTracks(keys, SequenceKey(p, c, a), reaching)
    ensures KeyTracks(NotifyEffect(keys, p, call).0, SequenceKey(p, c, a), reaching)
  {
    var keys', key := NotifyEffect(keys, p, call).0, SequenceKey(p, c, a);
    OtherCallKeepsKey(keys, p, call, c, a);
    assert forall n: nat :: Holds(keys', key, n) <==> Holds(keys, key, n);
  }

  lemma HitKeepsTracking(keys: Keys, reaching: set<nat>, p: string, call: Call, c: ChainId, a: Address)
    requires Hits(call, c, a) && KeyTracks(keys, SequenceKey(p, c, a), reaching)
    ensures KeyTracks(NotifyEffect(keys, p, call).0, SequenceKey(p, c, a), reaching + {call.vaa.sequence})
  {
    var keys', key := NotifyEffect(keys, p, call).0, SequenceKey(p, c, a);
    ScriptKeepsMaximum(keys, key, call.vaa.sequence);
    var top := call.vaa.sequence;
    if key in keys {
      var m: nat :| Holds(keys, key, m);
      top := Max(m, call.vaa.sequence);
    }
    assert Holds(keys', key, top) && IsMaximum(reaching + {call.vaa.sequence}, top);
    forall n: nat
      ensures Holds(keys', key, n) <==> IsMaximum(reaching + {call.vaa.sequence}, n)
    {
      if Holds(keys', key, n) { FormatInjective(n, top, 10); }
    }
  }

  /** The stored keys depend only on the set of notifications that reached the store: neither
      their order nor repetitions matter. */
  lemma OrderAndRepetitionIrrelevant(x: seq<Call>, y: seq<Call>, p: string)
    requires forall c: ChainId, a: Address :: Reaching(x, c, a) == Reaching(y, c, a)
    ensures NotifyAll(map[], p, x) == NotifyAll(map[], p, y)
  {
    var kx, ky := NotifyAll(map[], p, x), NotifyAll(map[], p, y);
    KeysComeFromCalls(x, p);
    KeysComeFromCalls(y, p);
    forall k | k in kx || k in ky
      ensures k in kx && k in ky && kx[k] == ky[k]
    {
      var c: ChainId, a: Address :| k == SequenceKey(p, c, a);
      StoredIsMaximum(x, p, c, a);
      StoredIsMaximum(y, p, c, a);
      assert Reaching(x, c, a) == Reaching(y, c, a);
      var n: nat :| Holds(kx, k, n);
      assert Holds(ky, k, n);
    }
  }

  lemma {:induction false} KeysComeFromCalls(calls: seq<Call>, p: string)
    ensures forall k :: k in NotifyAll(map[], p, calls) ==> exists c: ChainId, a: Address :: k == SequenceKey(p, c, a)
  {
    if calls != [] {
      KeysComeFromCalls(calls[..|calls| - 1], p);
    }
  }

  // ---------------------------------------------------------------- the notifier object

  class LastSequenceNotifier {
    const prefix: string
    var keys: Keys

    constructor (prefix: string)
      ensures this.prefix == FullPrefix(prefix) && keys == map[]
      ensures this.prefix == if prefix == "" then "wormscan:vaa-max-sequence" else prefix + ":wormscan:vaa-max-sequence"
    {
      this.prefix := if prefix == "" then SUFFIX else prefix + ":" + SUFFIX;
      keys := map[];
    }

    /** The Lua script, statement by statement. */
    method RunScript(key: string, newValue: string) returns (reply: Result<string>)
      modifies this`keys
      ensures (keys, reply) == ScriptEffect(old(keys), key, newValue)
    {
      if newValue == "" || exists i :: 0 <= i < |newValue| && !('0' <= newValue[i] <= '9') {
        return Err("not a valid number");
      }
      if key in keys {
        var currentValue := keys[key];
        if |newValue| > |currentValue| {
          keys := keys[key := newValue];
          return Ok(newValue);
        } else if |newValue| < |currentValue| {
          return Ok(currentValue);
        } else if StringLess(currentValue, newValue) {
          keys := keys[key := newValue];
          return Ok(newValue);
        } else {
          return Ok(currentValue);
        }
      } else {
        keys := keys[key := newValue];
        return Ok(newValue);
      }
    }

    method Notify(v: Vaa, write: Write) returns (ok: bool)
      modifies this`keys
      ensures (keys, ok) == NotifyEffect(old(keys), prefix, Call(v, write))
      ensures ok == write.Acked?
      ensures var key := prefix + ":" + FormatUint(v.emitterChain, 10) + ":" + HexEncode(v.emitterAddress);
              && (write.Applied() ==> key in keys)
              && forall k :: k != key ==> (k in keys <==> k in old(keys)) && (k in keys ==> keys[k] == old(keys[k]))
    {
      NotifySucceedsIff(keys, prefix, v, write);
      PrintedIsDecimal(v.sequence);
      var key := SequenceKey(prefix, v.emitterChain, v.emitterAddress);
      var sequence := FormatUint(v.sequence, 10);
      if write.Rejected? {
        return false;
      }
      var reply := RunScript(key, sequence);
      ok := reply.Ok? && write.Acked?;
    }
  }
}
