/** Base16 as the Go standard library and go-ethereum's hexutil write and read it (RFC 4648, section 8). */
module Hex {
  import opened Wrappers

  type Byte = x: int | 0 <= x < 256

  function Digit(n: nat): char
    requires n < 16
  {
    if n < 10 then ('0' as int + n) as char else ('a' as int + n - 10) as char
  }

  /** Readers accept both cases. */
  function Value(c: char): (r: Option<nat>)
    ensures r.Some? ==> r.value < 16
  {
    if '0' <= c <= '9' then Some(c as int - '0' as int)
    else if 'a' <= c <= 'f' then Some(c as int - 'a' as int + 10)
    else if 'A' <= c <= 'F' then Some(c as int - 'A' as int + 10)
    else None
  }

  function LowerChar(c: char): char {
    if 'A' <= c <= 'Z' then (c as int - 'A' as int + 'a' as int) as char else c
  }

  function Lower(s: string): (r: string)
    ensures |r| == |s| && forall i :: 0 <= i < |s| ==> r[i] == LowerChar(s[i])
  {
    seq(|s|, i requires 0 <= i < |s| => LowerChar(s[i]))
  }

  /** k is s with its ASCII capitals, and nothing else, moved to their small letters. */
  ghost predicate IsLowerCaseOf(s: string, k: string) {
    && |k| == |s|
    && forall i :: 0 <= i < |s| ==>
         if 'A' <= s[i] <= 'Z' then k[i] as int == s[i] as int + 32 else k[i] == s[i]
  }

  /** No capital survives, and every other character stays as it is. */
  lemma LowerIsLowerCase(s: string, k: string)
    ensures Lower(s) == k <==> IsLowerCaseOf(s, k)
    ensures forall i :: 0 <= i < |s| ==> !('A' <= Lower(s)[i] <= 'Z')
  {
  }

  const DIGITS := "0123456789abcdef"
  const CAPITAL_DIGITS := "0123456789ABCDEF"

  /** Sixteen digits are written, and their capitals are read as well; no other character is. */
  lemma ValueIffDigit(c: char, v: nat)
    ensures Value(c) == Some(v) <==> v < 16 && (c == DIGITS[v] || c == CAPITAL_DIGITS[v])
    ensures v < 16 ==> Digit(v) == DIGITS[v]
  {
  }

  lemma DigitOfValue(c: char)
    requires Value(c).Some?
    ensures Digit(Value(c).value) == LowerChar(c)
  {
  }

  // ------------------------------------------------------------------- bytes

  function EncodeBytes(bytes: seq<Byte>): (s: string)
    ensures |s| == 2 * |bytes|
  {
    if bytes == [] then ""
    else [Digit(bytes[0] / 16), Digit(bytes[0] % 16)] + EncodeBytes(bytes[1..])
  }

  /** The byte a pair of characters stands for. */
  function PairValue(hi: char, lo: char): Option<Byte> {
    if Value(hi).Some? && Value(lo).Some? then Some(16 * Value(hi).value + Value(lo).value) else None
  }

  function DecodeBytes(s: string): Option<seq<Byte>> {
    if s == "" then Some([])
    else if |s| == 1 || PairValue(s[0], s[1]).None? then None
    else
      var rest := DecodeBytes(s[2..]);
      if rest.None? then None else Some([PairValue(s[0], s[1]).value] + rest.value)
  }

  lemma {:induction false} BytesRoundTrip(bytes: seq<Byte>)
    ensures DecodeBytes(EncodeBytes(bytes)) == Some(bytes)
  {
    if bytes != [] {
      BytesRoundTrip(bytes[1..]);
      assert EncodeBytes(bytes)[2..] == EncodeBytes(bytes[1..]);
      assert [bytes[0]] + bytes[1..] == bytes;
    }
  }

  /** The more significant digit of each byte comes first. */
  lemma {:induction false} BytesAreDigitPairs(bytes: seq<Byte>, i: nat)
    requires i < |bytes|
    ensures EncodeBytes(bytes)[2 * i] == DIGITS[bytes[i] / 16]
    ensures EncodeBytes(bytes)[2 * i + 1] == DIGITS[bytes[i] % 16]
  {
    if i == 0 {
      ValueIffDigit('0', bytes[0] / 16);
      ValueIffDigit('0', bytes[0] % 16);
    } else {
      BytesAreDigitPairs(bytes[1..], i - 1);
    }
  }

  /** Whatever decodes re-encodes to itself in lower case. */
  lemma {:induction false} DecodedReencodes(s: string)
    requires DecodeBytes(s).Some?
    ensures EncodeBytes(DecodeBytes(s).value) == Lower(s)
  {
    if s != "" {
      DecodedReencodes(s[2..]);
      DigitOfValue(s[0]);
      DigitOfValue(s[1]);
      assert Lower(s) == [LowerChar(s[0]), LowerChar(s[1])] + Lower(s[2..]);
    }
  }

  // -------------------------------------------------------------- quantities

  function EncodeNat(n: nat): (s: string)
    ensures |s| > 0
  {
    if n < 16 then [Digit(n)] else EncodeNat(n / 16) + [Digit(n % 16)]
  }

  function DecodeNat(s: string): Option<nat> {
    if s == "" then Some(0)
    else
      var front, digit := DecodeNat(s[..|s| - 1]), Value(s[|s| - 1]);
      if front.None? || digit.None? then None else Some(16 * front.value + digit.value)
  }

  lemma {:induction false} NatRoundTrip(n: nat)
    ensures DecodeNat(EncodeNat(n)) == Some(n)
  {
    if n < 16 {
      assert [Digit(n)][..0] == "";
    } else {
      NatRoundTrip(n / 16);
      assert EncodeNat(n)[..|EncodeNat(n)| - 1] == EncodeNat(n / 16);
    }
  }

  /** Lower-case digits only, and no leading zero except in zero itself. */
  lemma {:induction false} NatIsCanonical(n: nat)
    ensures forall i :: 0 <= i < |EncodeNat(n)| ==>
              Value(EncodeNat(n)[i]).Some? && LowerChar(EncodeNat(n)[i]) == EncodeNat(n)[i]
    ensures EncodeNat(n)[0] == '0' <==> n == 0
    ensures n == 0 ==> EncodeNat(n) == "0"
  {
    if n >= 16 { NatIsCanonical(n / 16); }
  }

  function Pow16(k: nat): (p: nat)
    ensures p > 0
  {
    if k == 0 then 1 else 16 * Pow16(k - 1)
  }

  lemma DivideTwice(n: nat, p: nat)
    requires p > 0
    ensures n / 16 / p == n / (16 * p)
  {
    var q, r := n / (16 * p), n % (16 * p);
    assert n == 16 * (p * q) + r;
    assert n / 16 == p * q + r / 16;
    assert 0 <= r / 16 < p;
    QuotientIsUnique(n / 16, p, q, r / 16);
  }

  lemma QuotientIsUnique(n: nat, p: nat, q: nat, r: nat)
    requires n == p * q + r && r < p
    ensures n / p == q
  {
    var d := n / p - q;
    assert n == p * (n / p) + n % p;
    assert p * d == p * (n / p) - p * q;
    if d != 0 {
      MultipleIsFar(p, d);
      assert false;
    }
  }

  lemma MultipleIsFar(p: nat, d: int)
    requires d != 0
    ensures p * d >= p || p * d + p <= 0
  {
    if d > 0 {
      assert p * (d - 1) >= 0;
    } else {
      assert p * (-d - 1) >= 0;
    }
  }

  /** Base sixteen, the most significant digit first: the one k places from the right counts the k-th power. */
  ghost predicate IsBase16(s: string, n: nat) {
    && s != "" && (s[0] == '0' <==> n == 0) && (n == 0 ==> s == "0")
    && forall k :: 0 <= k < |s| ==> s[|s| - 1 - k] == DIGITS[n / Pow16(k) % 16]
  }

  lemma {:induction false} NatIsPositional(n: nat, k: nat)
    requires k < |EncodeNat(n)|
    ensures EncodeNat(n)[|EncodeNat(n)| - 1 - k] == DIGITS[n / Pow16(k) % 16]
  {
    ValueIffDigit('0', n % 16);
    if k == 0 {
      assert n / Pow16(0) == n;
    } else {
      NatIsPositional(n / 16, k - 1);
      DivideTwice(n, Pow16(k - 1));
    }
  }

  lemma {:induction false} NatIsBase16(n: nat)
    ensures IsBase16(EncodeNat(n), n)
  {
    NatIsCanonical(n);
    forall k | 0 <= k < |EncodeNat(n)| ensures EncodeNat(n)[|EncodeNat(n)| - 1 - k] == DIGITS[n / Pow16(k) % 16] {
      NatIsPositional(n, k);
    }
  }

  function EncodeBig(i: int): string {
    if i < 0 then "-0x" + EncodeNat(-i) else "0x" + EncodeNat(i)
  }

  function DecodeBig(s: string): Option<int> {
    if "-0x" <= s then
      var n := DecodeNat(s[3..]);
      if n.None? then None else Some(-(n.value as int))
    else if "0x" <= s then
      var n := DecodeNat(s[2..]);
      if n.None? then None else Some(n.value as int)
    else None
  }

  lemma BigRoundTrip(i: int)
    ensures DecodeBig(EncodeBig(i)) == Some(i)
  {
    var magnitude := if i < 0 then -i else i;
    var s, digits := EncodeBig(i), EncodeNat(magnitude);
    NatRoundTrip(magnitude);
    if i < 0 {
      assert s[3..] == digits;
    } else {
      assert s[2..] == digits && s[0] == '0';
    }
  }
}
