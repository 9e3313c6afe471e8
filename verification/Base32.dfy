/** The base32 alphabet of section 6 of RFC 4648, with the padding that a CID string strips and its decoder restores. */
module Base32 {
  import opened Wrappers
  import opened Positional

  datatype Error = UnsupportedMultibase | InvalidBase32

  /** `A` to `Z`, then `2` to `7`. */
  function DigitChar(d: nat): char
    requires d < 32
  {
    if d < 26 then (d + 'A' as int) as char else (d - 26 + '2' as int) as char
  }

  function CharDigit(c: char): (d: Option<nat>)
    ensures d.Some? ==> d.value < 32
  {
    if 'A' <= c <= 'Z' then Some(c as int - 'A' as int)
    else if '2' <= c <= '7' then Some(c as int - '2' as int + 26)
    else None
  }

  function UpperChar(c: char): char {
    if 'a' <= c <= 'z' then (c as int - 32) as char else c
  }

  function LowerChar(c: char): char {
    if 'A' <= c <= 'Z' then (c as int + 32) as char else c
  }

  function Upper(s: string): string {
    seq(|s|, i requires 0 <= i < |s| => UpperChar(s[i]))
  }

  function Lower(s: string): string {
    seq(|s|, i requires 0 <= i < |s| => LowerChar(s[i]))
  }

  function Repeat(c: char, n: nat): string {
    seq(n, i => c)
  }

  /** `s` without the pad characters at its end. */
  function StripPadding(s: string): (r: string)
    ensures r <= s
  {
    if s != [] && s[|s| - 1] == '=' then StripPadding(s[..|s| - 1]) else s
  }

  function DigitsToString(digits: seq<nat>): (s: string)
    requires DigitsOf(32, digits)
    ensures |s| == |digits|
  {
    seq(|digits|, i requires 0 <= i < |digits| => DigitChar(digits[i]))
  }

  function StringToDigits(s: string): (r: Option<seq<nat>>)
    ensures r.Some? ==> DigitsOf(32, r.value) && |r.value| == |s|
  {
    if s == [] then Some([])
    else match (CharDigit(s[0]), StringToDigits(s[1..])) {
      case (Some(d), Some(ds)) => Some([d] + ds)
      case _ => None
    }
  }

  /** Digits that `bytes` leftover bytes take: the least number whose five bits each cover them. */
  function PartialDigits(bytes: nat): nat {
    (8 * bytes + 4) / 5
  }

  /** Quanta of five bytes become eight digits; the last, partial quantum is filled with zero bytes. */
  function EncodeDigits(data: seq<byte>): (digits: seq<nat>)
    ensures DigitsOf(32, digits)
  {
    if data == [] then []
    else if |data| < 5 then
      ToDigits(32, 8, FromDigits(256, data) * Pow(256, 5 - |data|))[..PartialDigits(|data|)]
    else ToDigits(32, 8, FromDigits(256, data[..5])) + EncodeDigits(data[5..])
  }

  function EncodeText(data: seq<byte>): string {
    var digits := EncodeDigits(data);
    DigitsToString(digits) + Repeat('=', (8 - |digits| % 8) % 8)
  }

  /** Whole bytes held by `digits` leftover digits, as the decoder computes it from the pad count. */
  function PartialBytes(digits: nat): nat
    requires digits <= 8
  {
    (43 - 5 * (8 - digits)) / 8
  }

  function DecodeDigits(digits: seq<nat>): (data: seq<byte>)
    requires DigitsOf(32, digits)
  {
    if digits == [] then []
    else if |digits| < 8 then
      ToDigits(256, 5, FromDigits(32, digits) * Pow(32, 8 - |digits|))[..PartialBytes(|digits|)]
    else ToDigits(256, 5, FromDigits(32, digits[..8])) + DecodeDigits(digits[8..])
  }

  /** Upper-case only.  Bits left over in the last digit are dropped whatever their value. */
  function DecodeText(s: string): Result<seq<byte>, Error>
    requires |s| % 8 == 0
  {
    var stripped := StripPadding(s);
    var digits := StringToDigits(stripped);
    if digits.None? then Err(InvalidBase32)
    else if |s| - |stripped| !in {0, 1, 3, 4, 6} then Err(InvalidBase32)
    else Ok(DecodeDigits(digits.value))
  }

  function DecodeCid(cid: string): Result<seq<byte>, Error> {
    if cid == [] || cid[0] != 'b' then Err(UnsupportedMultibase)
    else
      var encoded := Upper(cid[1..]);
      DecodeText(encoded + Repeat('=', (8 - |encoded| % 8) % 8))
  }

  function EncodeCid(data: seq<byte>): string {
    "b" + StripPadding(Lower(EncodeText(data)))
  }

  // ---- digits and characters ----

  lemma StripPadded(s: string, n: nat)
    requires s == [] || s[|s| - 1] != '='
    ensures StripPadding(s + Repeat('=', n)) == s
  {
    if n == 0 {
      assert s + Repeat('=', n) == s;
    } else {
      assert (s + Repeat('=', n))[..|s| + n - 1] == s + Repeat('=', n - 1);
      StripPadded(s, n - 1);
    }
  }

  lemma CharRoundTrip(d: nat)
    requires d < 32
    ensures CharDigit(DigitChar(d)) == Some(d)
  {
  }

  lemma CharCase(c: char)
    requires CharDigit(c).Some?
    ensures c != '=' && LowerChar(c) != '=' && UpperChar(LowerChar(c)) == c
  {
  }

  lemma {:induction false} StringDigitsRoundTrip(digits: seq<nat>)
    requires DigitsOf(32, digits)
    ensures StringToDigits(DigitsToString(digits)) == Some(digits)
  {
    if digits == [] {
    } else {
      var text := DigitsToString(digits);
      CharRoundTrip(digits[0]);
      StringDigitsRoundTrip(digits[1..]);
      assert text[1..] == DigitsToString(digits[1..]);
      assert text[0] == DigitChar(digits[0]);
      assert digits == [digits[0]] + digits[1..];
    }
  }

  // ---- quanta ----

  lemma {:induction false} QuantumRoundTrip(data: seq<byte>)
    requires |data| == 5
    ensures ToDigits(256, 5, FromDigits(32, ToDigits(32, 8, FromDigits(256, data)))) == data
  {
    hide Pow, ToDigits, FromDigits;
    Powers();
    FromDigitsBound(256, data);
    ToFromDigits(32, 8, FromDigits(256, data));
    FromToDigits(256, data);
  }

  lemma Powers()
    ensures Pow(256, 1) == 0x100 && Pow(256, 2) == 0x1_0000 && Pow(256, 3) == 0x100_0000
    ensures Pow(256, 4) == 0x1_0000_0000 && Pow(256, 5) == 0x100_0000_0000
    ensures Pow(32, 1) == 0x20 && Pow(32, 2) == 0x400 && Pow(32, 3) == 0x8000 && Pow(32, 4) == 0x10_0000
    ensures Pow(32, 5) == 0x200_0000 && Pow(32, 6) == 0x4000_0000 && Pow(32, 7) == 0x8_0000_0000
    ensures Pow(32, 8) == 0x100_0000_0000
  {
  }

  /** Filling `k` bytes up to a quantum multiplies by `c` and then by the weight of the digits that are cut off. */
  lemma PartialWeights(k: nat) returns (c: nat)
    requires 1 <= k <= 4
    ensures c > 0 && 0 < PartialDigits(k) < 8 && PartialBytes(PartialDigits(k)) == k
    ensures c * Pow(32, 8 - PartialDigits(k)) == Pow(256, 5 - k)
    ensures c * Pow(256, k) == Pow(32, PartialDigits(k))
  {
    hide Pow;
    Powers();
    if k == 1 {
      return 4;
    } else if k == 2 {
      return 16;
    } else if k == 3 {
      return 2;
    } else {
      return 8;
    }
  }

  lemma Reassociate(c: nat, w: nat, v: nat)
    ensures v * (c * w) == c * v * w
    ensures c * (v + w) == c * v + c * w
  {
  }

  lemma LastQuantumWeight(q: nat, m: nat)
    requires m <= 8 && q < Pow(32, m)
    ensures ToDigits(32, 8, q * Pow(32, 8 - m))[..m] == ToDigits(32, m, q)
  {
    hide Pow, ToDigits;
    ToDigitsPrefix(32, 8, m, q * Pow(32, 8 - m));
    DivModUnique(Pow(32, 8 - m), q, 0);
  }

  /** The digits that are cut off a partial quantum are zeros, so the others still determine its value. */
  lemma {:induction false} PartialQuantumValue(k: nat, v: nat)
    requires 1 <= k <= 4 && v < Pow(256, k)
    ensures PartialDigits(k) < 8
    ensures FromDigits(32, ToDigits(32, 8, v * Pow(256, 5 - k))[..PartialDigits(k)]) * Pow(32, 8 - PartialDigits(k))
         == v * Pow(256, 5 - k)
  {
    hide Pow, ToDigits, FromDigits, PartialBytes;
    var m := PartialDigits(k);
    var c := PartialWeights(k);
    var w := Pow(32, 8 - m);
    var q := c * v;
    Reassociate(c, w, v);
    MulMonotone(c, v + 1, Pow(256, k));
    Reassociate(c, 1, v);
    LastQuantumWeight(q, m);
    ToFromDigits(32, m, q);
  }

  /** Lengths, up to whole quanta, that some data is encoded to, and the padding each takes. */
  predicate WholeBytes(n: nat) {
    n % 8 == 0 || n % 8 == 2 || n % 8 == 4 || n % 8 == 5 || n % 8 == 7
  }

  lemma WholeBytesPadding(n: nat)
    requires WholeBytes(n)
    ensures var pads := (8 - n % 8) % 8; (n + pads) % 8 == 0 && pads in {0, 1, 3, 4, 6}
  {
  }

  lemma DecodePartial(digits: seq<nat>, x: nat)
    requires 0 < |digits| < 8 && DigitsOf(32, digits)
    requires FromDigits(32, digits) * Pow(32, 8 - |digits|) == x
    ensures DecodeDigits(digits) == ToDigits(256, 5, x)[..PartialBytes(|digits|)]
  {
  }

  lemma TopBytes(data: seq<byte>, w: nat)
    requires |data| <= 5 && w == Pow(256, 5 - |data|)
    ensures ToDigits(256, 5, FromDigits(256, data) * w)[..|data|] == data
  {
    hide Pow, ToDigits, FromDigits;
    assert w > 0;
    var v := FromDigits(256, data);
    FromDigitsBound(256, data);
    DivModUnique(w, v, 0);
    ToDigitsPrefix(256, 5, |data|, v * w);
    FromToDigits(256, data);
  }

  lemma PartialLength(k: nat)
    requires 1 <= k <= 4
    ensures WholeBytes(PartialDigits(k))
  {
  }

  lemma {:induction false} PartialQuantumRoundTrip(data: seq<byte>)
    requires 1 <= |data| <= 4
    ensures WholeBytes(|EncodeDigits(data)|)
    ensures DecodeDigits(EncodeDigits(data)) == data
  {
    hide ToDigits, FromDigits, Pow, PartialDigits, PartialBytes;
    var v := FromDigits(256, data);
    FromDigitsBound(256, data);
    PartialQuantumValue(|data|, v);
    var c := PartialWeights(|data|);
    var digits := EncodeDigits(data);
    DecodePartial(digits, v * Pow(256, 5 - |data|));
    TopBytes(data, Pow(256, 5 - |data|));
    PartialLength(|data|);
  }

  lemma DecodeQuantum(quantum: seq<nat>, rest: seq<nat>)
    requires DigitsOf(32, quantum) && DigitsOf(32, rest) && |quantum| == 8
    ensures DecodeDigits(quantum + rest) == ToDigits(256, 5, FromDigits(32, quantum)) + DecodeDigits(rest)
  {
    assert (quantum + rest)[..8] == quantum && (quantum + rest)[8..] == rest;
  }

  lemma {:induction false} DigitsRoundTrip(data: seq<byte>)
    ensures DecodeDigits(EncodeDigits(data)) == data
    ensures WholeBytes(|EncodeDigits(data)|)
  {
    hide ToDigits, FromDigits, PartialDigits, PartialBytes;
    if data == [] {
    } else if |data| < 5 {
      PartialQuantumRoundTrip(data);
    } else {
      var quantum := ToDigits(32, 8, FromDigits(256, data[..5]));
      var rest := EncodeDigits(data[5..]);
      DigitsRoundTrip(data[5..]);
      QuantumRoundTrip(data[..5]);
      DecodeQuantum(quantum, rest);
      assert EncodeDigits(data) == quantum + rest;
      assert data == data[..5] + data[5..];
    }
  }

  lemma LowerPadded(text: string, pads: nat)
    requires forall i :: 0 <= i < |text| ==> CharDigit(text[i]).Some?
    ensures StripPadding(Lower(text + Repeat('=', pads))) == Lower(text)
    ensures StripPadding(text + Repeat('=', pads)) == text
    ensures Upper(Lower(text)) == text
  {
    assert LowerChar('=') == '=';
    hide UpperChar, LowerChar, CharDigit, StripPadding;
    forall i | 0 <= i < |text|
      ensures text[i] != '=' && Lower(text)[i] != '=' && Upper(Lower(text))[i] == text[i]
    {
      CharCase(text[i]);
    }
    assert Lower(text + Repeat('=', pads)) == Lower(text) + Repeat('=', pads);
    StripPadded(Lower(text), pads);
    StripPadded(text, pads);
  }

  /** Stripping the padding loses nothing: the string of any data decodes to that data. */
  lemma CidRoundTrip(data: seq<byte>)
    ensures DecodeCid(EncodeCid(data)) == Ok(data)
  {
    hide EncodeDigits, DecodeDigits, StringToDigits, StripPadding;
    var digits := EncodeDigits(data);
    var text, pads := DigitsToString(digits), (8 - |digits| % 8) % 8;
    DigitsRoundTrip(data);
    StringDigitsRoundTrip(digits);
    LowerPadded(text, pads);
    assert EncodeCid(data) == "b" + Lower(text);
    assert EncodeCid(data)[1..] == Lower(text);
    WholeBytesPadding(|digits|);
    var padded := text + Repeat('=', pads);
    assert DecodeText(padded) == Ok(data);
  }

  /** Distinct data has distinct strings. */
  lemma EncodeCidInjective(a: seq<byte>, b: seq<byte>)
    requires EncodeCid(a) == EncodeCid(b)
    ensures a == b
  {
    CidRoundTrip(a);
    CidRoundTrip(b);
  }

  lemma TwoDigits(low: nat)
    requires low < 2
    ensures DecodeDigits([0, low]) == [0]
  {
    Snoc(32, [0], low);
    assert FromDigits(32, [0, low]) == low;
    assert Pow(32, 6) == 0x4000_0000 && Pow(256, 4) == 0x1_0000_0000;
    ToDigitsPrefix(256, 5, 1, low * Pow(32, 6));
    assert ToDigits(256, 1, 0) == [0];
  }

  lemma DecodesOneByte(cid: string, text: string, low: nat, pads: nat)
    requires cid != [] && cid[0] == 'b' && low < 2 && text == [DigitChar(0), DigitChar(low)]
    requires Upper(cid[1..]) == text + Repeat('=', pads) && pads <= 6
    ensures DecodeCid(cid) == Ok([0])
  {
    var encoded := Upper(cid[1..]);
    var more := (8 - |encoded| % 8) % 8;
    assert encoded + Repeat('=', more) == text + Repeat('=', 6);
    StripPadded(text, 6);
    StringDigitsRoundTrip([0, low]);
    assert DigitsToString([0, low]) == text;
    TwoDigits(low);
  }

  /** Decoding is not injective: letter case, explicit padding and the unused bits of the last digit do not count. */
  lemma SpellingsOfOneByte()
    ensures DecodeCid("baa") == DecodeCid("bAA") == DecodeCid("bab") == DecodeCid("baa=") == Ok([0])
  {
    hide DecodeCid;
    DecodesOneByte("baa", "AA", 0, 0);
    DecodesOneByte("bAA", "AA", 0, 0);
    DecodesOneByte("bab", "AB", 1, 0);
    DecodesOneByte("baa=", "AA", 0, 1);
  }
}
