/** Block numbers as hexadecimal text (common/utils/hex.go, contract-watcher/watcher/evm.go). */
module HexNumbers {
  import opened Wrappers
  import opened Text

  /** strings.Replace(input, "0x", "", -1): one pass from left to right, so what the pass puts
      together is not looked at again. */
  function Remove0x(s: string): string {
    if s == "" then ""
    else if "0x" <= s then Remove0x(s[2..])
    else [s[0]] + Remove0x(s[1..])
  }

  function EncodeHex(v: uint64): string {
    "0x" + FormatUint(v, 16)
  }

  function DecodeUint64(s: string): Result<uint64> {
    ParseUint(Remove0x(s), 16)
  }

  /** The decimal form of a hexadecimal number; text that does not parse is handed back. */
  function GetBlockNumber(s: string): string {
    match ParseInt64(Remove0x(s), 16)
    case None => s
    case Some(n) => FormatInt(n, 10)
  }

  lemma RemoveTag(s: string)
    ensures Remove0x("0x" + s) == Remove0x(s)
  {
    assert ("0x" + s)[2..] == s;
  }

  lemma RemoveOther(c: char, s: string)
    requires c != '0' || s == "" || s[0] != 'x'
    ensures Remove0x([c] + s) == [c] + Remove0x(s)
  {
    var t := [c] + s;
    assert t[1..] == s && (s != "" ==> t[1] == s[0]);
  }

  /** A tag disappears wherever it stands, and the two sides are cleaned independently. */
  lemma {:induction false} TagVanishes(a: string, b: string)
    ensures Remove0x(a + "0x" + b) == Remove0x(a) + Remove0x(b)
  {
    assert Remove0x("") == "";
    hide Remove0x;
    var rest := "0x" + b;
    if a == "" {
      assert a + "0x" + b == rest;
      RemoveTag(b);
    } else if "0x" <= a {
      assert a == "0x" + a[2..];
      assert a + "0x" + b == "0x" + (a[2..] + "0x" + b);
      RemoveTag(a[2..]);
      RemoveTag(a[2..] + "0x" + b);
      TagVanishes(a[2..], b);
    } else {
      var t := a[1..] + "0x" + b;
      assert a == [a[0]] + a[1..] && a + "0x" + b == [a[0]] + t;
      assert t[0] == if |a| > 1 then a[1] else '0';
      RemoveOther(a[0], a[1..]);
      RemoveOther(a[0], t);
      TagVanishes(a[1..], b);
    }
  }

  lemma {:induction false} NothingToRemove(s: string)
    requires 'x' !in s
    ensures Remove0x(s) == s
  {
    if s != "" {
      assert |s| > 1 ==> s[1] in s;
      NothingToRemove(s[1..]);
    }
  }

  predicate HasTag(s: string) {
    exists i :: 0 <= i < |s| && "0x" <= s[i..]
  }

  /** Any number of tags, then an x. */
  predicate TagsThenX(s: string) {
    s != "" && (s[0] == 'x' || ("0x" <= s && TagsThenX(s[2..])))
  }

  /** A zero and an x with one or more tags between them. */
  predicate SplitsTag(s: string) {
    exists i :: 0 <= i < |s| && OpensSplitTag(s, i)
  }

  predicate OpensSplitTag(s: string, i: nat)
    requires i < |s|
  {
    s[i] == '0' && "0x" <= s[i + 1..] && TagsThenX(s[i + 1..])
  }

  lemma {:induction false} CleanedStartsWithX(s: string)
    ensures "x" <= Remove0x(s) <==> TagsThenX(s)
  {
    if s != "" {
      if "0x" <= s {
        CleanedStartsWithX(s[2..]);
        assert s[0] == '0';
      } else {
        assert Remove0x(s)[0] == s[0];
      }
    }
  }

  lemma TagBehind(c: char, s: string)
    ensures HasTag([c] + s) <==> HasTag(s) || (c == '0' && "x" <= s)
  {
    var t := [c] + s;
    assert t[0..] == t;
    assert forall i :: 1 <= i < |t| ==> t[i..] == s[i - 1..];
    if i :| 0 <= i < |s| && "0x" <= s[i..] {
      assert t[i + 1..] == s[i..];
    }
    assert "0x" <= t <==> c == '0' && "x" <= s by {
      assert t[0] == c && (s != "" ==> t[1] == s[0]);
    }
  }

  lemma SplitTagBehind(s: string, n: nat)
    requires n <= |s| && forall i :: 0 <= i < n ==> !OpensSplitTag(s, i)
    ensures SplitsTag(s) <==> SplitsTag(s[n..])
  {
    var t := s[n..];
    assert forall i :: 0 <= i < |t| ==> t[i] == s[n + i] && t[i + 1..] == s[n + i + 1..];
    if i :| 0 <= i < |t| && OpensSplitTag(t, i) {
      assert OpensSplitTag(s, n + i);
    }
    if i :| 0 <= i < |s| && OpensSplitTag(s, i) {
      assert OpensSplitTag(t, i - n);
    }
  }

  /** Cleaning is one pass, and the ends of what it removes can form a new tag: a tag is left if and
      only if the text has a zero and an x with one or more tags, and nothing else, between them. */
  lemma {:induction false} TagLeftIff(s: string)
    ensures HasTag(Remove0x(s)) <==> SplitsTag(s)
  {
    if s != "" {
      if "0x" <= s {
        TagLeftIff(s[2..]);
        SplitTagBehind(s, 2);
      } else {
        TagLeftIff(s[1..]);
        TagBehind(s[0], Remove0x(s[1..]));
        CleanedStartsWithX(s[1..]);
        if OpensSplitTag(s, 0) {
        } else {
          SplitTagBehind(s, 1);
        }
      }
    }
  }

  lemma {:induction false} UntaggedIffFixed(s: string)
    ensures Remove0x(s) == s <==> !HasTag(s)
    ensures |Remove0x(s)| <= |s|
  {
    if s != "" {
      if "0x" <= s {
        UntaggedIffFixed(s[2..]);
        assert s[0..] == s;
      } else {
        UntaggedIffFixed(s[1..]);
        assert s == [s[0]] + s[1..];
        TagBehind(s[0], s[1..]);
      }
    }
  }

  /** Cleaning a cleaned text changes it under the same condition. */
  lemma CleaningAgainIff(s: string)
    ensures Remove0x(Remove0x(s)) != Remove0x(s) <==> SplitsTag(s)
  {
    TagLeftIff(s);
    UntaggedIffFixed(Remove0x(s));
  }

  lemma RemoveOfEncoded(v: uint64)
    ensures Remove0x(EncodeHex(v)) == FormatUint(v, 16)
  {
    var digits := FormatUint(v, 16);
    if 'x' in digits {
      var i :| 0 <= i < |digits| && digits[i] == 'x';
      FormatAlphabet(v, 16, i);
      assert false;
    }
    TagVanishes("", digits);
    assert EncodeHex(v) == "" + "0x" + digits;
    NothingToRemove(digits);
  }

  /** Although every "0x" is deleted, each 64-bit number survives printing and reading. */
  lemma DecodeAfterEncode(v: uint64)
    ensures DecodeUint64(EncodeHex(v)) == Ok(v)
  {
    RemoveOfEncoded(v);
    ParseFormat(v, 16);
  }

  lemma TagIsNoNumber(v: uint64)
    ensures ParseInteger(EncodeHex(v), 10) == None
  {
    assert EncodeHex(v)[1] == 'x';
  }

  /** The conversion to decimal keeps the value exactly below 2^63; from there on the hexadecimal
      text comes back unchanged. */
  lemma BlockNumberKeepsValueIff(v: uint64)
    ensures v < INT64_BOUND ==> GetBlockNumber(EncodeHex(v)) == FormatUint(v, 10)
    ensures v >= INT64_BOUND ==> GetBlockNumber(EncodeHex(v)) == EncodeHex(v)
    ensures ParseInteger(GetBlockNumber(EncodeHex(v)), 10) == Some(v) <==> v < INT64_BOUND
  {
    hide EncodeHex, Remove0x, FormatUint, ParseInteger;
    RemoveOfEncoded(v);
    ParseFormatInt(v, 16);
    ParseFormatInt(v, 10);
    TagIsNoNumber(v);
  }
}
