/** Deterministic deal identifiers: the 80 bits of entropy of a seed's hash, written as a ULID with timestamp zero. */
module CurioIdentifier {
  import opened Wrappers
  import opened Positional

  const LENGTH: nat := 26
  const LIMIT: nat := Pow(2, 80)

  /** Digits and capital letters without I, L, O and U. */
  const ALPHABET := "0123456789ABCDEFGHJKMNPQRSTVWXYZ"

  function UlidChar(d: nat): char
    requires d < 32
  {
    ALPHABET[d]
  }

  function UlidDigit(c: char): (d: Option<nat>)
    ensures d.Some? ==> d.value < 32
  {
    if '0' <= c <= '9' then Some(c as int - '0' as int)
    else if 'A' <= c <= 'H' then Some(c as int - 'A' as int + 10)
    else if c == 'J' then Some(18)
    else if c == 'K' then Some(19)
    else if c == 'M' then Some(20)
    else if c == 'N' then Some(21)
    else if 'P' <= c <= 'T' then Some(c as int - 'P' as int + 22)
    else if 'V' <= c <= 'Z' then Some(c as int - 'V' as int + 27)
    else None
  }

  lemma CharOfDigit(d: nat)
    requires d < 32
    ensures UlidDigit(UlidChar(d)) == Some(d)
  {
  }

  lemma DigitOfChar(c: char)
    requires UlidDigit(c).Some?
    ensures UlidChar(UlidDigit(c).value) == c
  {
  }

  function Text(digits: seq<nat>): (s: string)
    requires DigitsOf(32, digits)
    ensures |s| == |digits|
  {
    seq(|digits|, i requires 0 <= i < |digits| => UlidChar(digits[i]))
  }

  function Ulid(entropy: nat): (s: string)
    ensures |s| == LENGTH
  {
    Text(ToDigits(32, LENGTH, entropy))
  }

  function Reversed<T>(s: seq<T>): (r: seq<T>)
    ensures |r| == |s|
  {
    seq(|s|, i requires 0 <= i < |s| => s[|s| - 1 - i])
  }

  method DeterministicUlid(entropy: nat) returns (s: string)
    ensures s == Ulid(entropy)
  {
    var value := entropy;
    var result: string := [];
    for i := 0 to LENGTH
      invariant |result| == i
      invariant Text(ToDigits(32, LENGTH - i, value)) + Reversed(result) == Ulid(entropy)
    {
      ghost var before := Text(ToDigits(32, LENGTH - i, value)) + Reversed(result);
      var c := UlidChar(value % 32);
      result := result + [c];
      value := value / 32;
      assert before == Text(ToDigits(32, LENGTH - i - 1, value)) + ([c] + Reversed(result[..i]));
      assert Reversed(result) == [c] + Reversed(result[..i]);
    }
    return Reversed(result);
  }

  predicate IsUlidText(s: string) {
    forall i :: 0 <= i < |s| ==> UlidDigit(s[i]).Some?
  }

  function Digits(s: string): (digits: seq<nat>)
    requires IsUlidText(s)
    ensures |digits| == |s| && DigitsOf(32, digits)
  {
    seq(|s|, i requires 0 <= i < |s| => UlidDigit(s[i]).value)
  }

  /** The entropy that an identifier spells. */
  function Entropy(s: string): nat
    requires IsUlidText(s)
  {
    FromDigits(32, Digits(s))
  }

  predicate HasZeroTimestamp(s: string) {
    |s| == LENGTH && forall i :: 0 <= i < 10 ==> s[i] == '0'
  }

  lemma TextDigits(digits: seq<nat>)
    requires DigitsOf(32, digits)
    ensures IsUlidText(Text(digits)) && Digits(Text(digits)) == digits
  {
    forall i | 0 <= i < |digits|
      ensures UlidDigit(Text(digits)[i]) == Some(digits[i])
    {
      CharOfDigit(digits[i]);
    }
  }

  lemma DigitsText(s: string)
    requires IsUlidText(s)
    ensures Text(Digits(s)) == s
  {
    forall i | 0 <= i < |s|
      ensures Text(Digits(s))[i] == s[i]
    {
      DigitOfChar(s[i]);
    }
  }

  lemma Weights()
    ensures Pow(32, 16) == LIMIT && Pow(32, LENGTH) >= LIMIT
  {
    PowMonotone(32, 16, LENGTH);
    PowOfPow(16);
  }

  lemma {:induction false} PowOfPow(n: nat)
    ensures Pow(32, n) == Pow(2, 5 * n)
  {
    if n > 0 {
      PowOfPow(n - 1);
      PowAdd(2, 5, 5 * (n - 1));
      assert Pow(2, 5) == 32;
    }
  }

  lemma ZeroDigits()
    ensures ToDigits(32, 10, 0) == Zeros(10)
  {
    FromDigitsZeros(32, 10);
    FromToDigits(32, Zeros(10));
  }

  lemma HighDigitsAreZero(entropy: nat)
    requires entropy < LIMIT
    ensures forall i :: 0 <= i < 10 ==> ToDigits(32, LENGTH, entropy)[i] == 0
  {
    hide Pow, ToDigits, FromDigits;
    Weights();
    var digits := ToDigits(32, LENGTH, entropy);
    ToDigitsPrefix(32, LENGTH, 10, entropy);
    assert entropy / Pow(32, 16) == 0;
    ZeroDigits();
    assert forall i :: 0 <= i < 10 ==> digits[i] == digits[..10][i];
  }

  /** Every 80-bit entropy is spelled with a zero timestamp and is read back from its identifier. */
  lemma UlidRoundTrip(entropy: nat)
    requires entropy < LIMIT
    ensures IsUlidText(Ulid(entropy)) && HasZeroTimestamp(Ulid(entropy))
    ensures Entropy(Ulid(entropy)) == entropy
  {
    hide Pow, ToDigits, FromDigits;
    HighDigitsAreZero(entropy);
    Weights();
    TextDigits(ToDigits(32, LENGTH, entropy));
    ToFromDigits(32, LENGTH, entropy);
  }

  /** Every identifier text with a zero timestamp is the identifier of an 80-bit entropy, the one it spells. */
  lemma UlidOnto(s: string)
    requires IsUlidText(s) && HasZeroTimestamp(s)
    ensures Entropy(s) < LIMIT && Ulid(Entropy(s)) == s
  {
    hide Pow, ToDigits, FromDigits;
    Weights();
    var digits := Digits(s);
    DigitsText(s);
    FromToDigits(32, digits);
    var low := digits[10..];
    assert digits[..10] == Zeros(10);
    assert digits == Zeros(10) + low;
    FromDigitsConcat(32, Zeros(10), low);
    FromDigitsZeros(32, 10);
    FromDigitsBound(32, low);
  }
}
