/** Unsigned varints: little-endian groups of seven bits, the high bit of a byte announcing another group.
    The two loops are proved against recursive specifications, and the specifications against each other. */
module Uvarint {
  import opened Wrappers
  import opened Positional

  datatype Error = NegativeValue | UnexpectedEnd | Overflow

  /** A decoded value and the offset after it. */
  datatype Decoded = Decoded(value: nat, end: nat)

  /** The decoder gives up after its tenth byte, hence at 70 bits. */
  const MAX_GROUPS := 10
  const LIMIT: nat := Pow(2, 70)

  function Encode(v: nat): (bytes: seq<byte>)
    ensures |bytes| > 0
  {
    if v < 128 then [v] else [v % 128 + 128] + Encode(v / 128)
  }

  method EncodeUvarint(value: int) returns (r: Result<seq<byte>, Error>)
    ensures r == if value < 0 then Err(NegativeValue) else Ok(Encode(value))
  {
    if value < 0 {
      return Err(NegativeValue);
    }
    var rest: nat := value;
    var bytes: seq<byte> := [];
    while true
      invariant bytes + Encode(rest) == Encode(value)
      decreases rest
    {
      var b := rest % 128;
      ghost var before := rest;
      rest := rest / 128;
      if rest != 0 {
        assert Encode(before) == [b + 128] + Encode(rest);
        bytes := bytes + [b + 128];
      } else {
        assert Encode(before) == [b];
        return Ok(bytes + [b]);
      }
    }
  }

  /** Reads groups at `offset`, `groups` of them having been read before. */
  function DecodeGroups(data: seq<byte>, offset: nat, groups: nat): (r: Result<Decoded, Error>)
    decreases |data| - offset
  {
    if offset >= |data| then Err(UnexpectedEnd)
    else if data[offset] < 128 then Ok(Decoded(data[offset], offset + 1))
    else if groups + 1 >= MAX_GROUPS then Err(Overflow)
    else
      var rest :- DecodeGroups(data, offset + 1, groups + 1);
      Ok(Decoded(data[offset] - 128 + 128 * rest.value, rest.end))
  }

  function Decode(data: seq<byte>, offset: nat): Result<Decoded, Error> {
    DecodeGroups(data, offset, 0)
  }

  /** `v << n`. */
  function ShiftLeft(v: nat, n: nat): nat {
    v * Pow(2, n)
  }

  /** Bitwise or. */
  function BitOr(a: nat, b: nat): nat
    decreases a + b
  {
    if a == 0 then b
    else if b == 0 then a
    else 2 * BitOr(a / 2, b / 2) + if a % 2 == 0 && b % 2 == 0 then 0 else 1
  }

  /** Or-ing in bits above `shift` adds them. */
  lemma {:induction false} BitOrDisjoint(a: nat, b: nat, shift: nat)
    requires a < Pow(2, shift)
    ensures BitOr(a, ShiftLeft(b, shift)) == a + ShiftLeft(b, shift)
  {
    if shift == 0 {
    } else {
      var half := b * Pow(2, shift - 1);
      assert b * Pow(2, shift) == 2 * half;
      BitOrDisjoint(a / 2, b, shift - 1);
    }
  }

  /** The low `shift` bits already read, put under what remains to be read. */
  ghost function Append(value: nat, shift: nat, rest: Result<Decoded, Error>): Result<Decoded, Error> {
    if rest.Ok? then Ok(Decoded(value + rest.value.value * Pow(2, shift), rest.value.end)) else rest
  }

  lemma ShiftSeven(shift: nat, low: nat)
    requires low < 128
    ensures Pow(2, shift + 7) == 128 * Pow(2, shift)
    ensures low * Pow(2, shift) + Pow(2, shift) <= Pow(2, shift + 7)
  {
    PowAdd(2, shift, 7);
    assert Pow(2, 7) == 128;
    MulMonotone(Pow(2, shift), low + 1, 128);
    assert Pow(2, shift) * (low + 1) == low * Pow(2, shift) + Pow(2, shift);
  }

  lemma NoGroup(data: seq<byte>, offset: nat, groups: nat, value: nat, shift: nat)
    requires offset >= |data|
    ensures Append(value, shift, DecodeGroups(data, offset, groups)) == Err(UnexpectedEnd)
  {
  }

  lemma LastGroup(data: seq<byte>, offset: nat, groups: nat, value: nat, shift: nat)
    requires offset < |data| && data[offset] < 128
    ensures Append(value, shift, DecodeGroups(data, offset, groups))
         == Ok(Decoded(value + ShiftLeft(data[offset] % 128, shift), offset + 1))
  {
  }

  lemma AnotherGroup(data: seq<byte>, offset: nat, groups: nat, value: nat, shift: nat)
    requires offset < |data| && data[offset] >= 128 && value < Pow(2, shift)
    ensures value + ShiftLeft(data[offset] % 128, shift) < Pow(2, shift + 7)
    ensures Append(value, shift, DecodeGroups(data, offset, groups))
         == if groups + 1 >= MAX_GROUPS then Err(Overflow)
            else Append(value + ShiftLeft(data[offset] % 128, shift), shift + 7,
                        DecodeGroups(data, offset + 1, groups + 1))
  {
    hide Pow;
    ShiftSeven(shift, data[offset] % 128);
    if groups + 1 < MAX_GROUPS && DecodeGroups(data, offset + 1, groups + 1).Ok? {
      var v := DecodeGroups(data, offset + 1, groups + 1).value.value;
      Regroup(value, data[offset] % 128, v, Pow(2, shift));
    }
  }

  lemma Regroup(value: nat, low: nat, high: nat, weight: nat)
    ensures value + (low + 128 * high) * weight == value + low * weight + high * (128 * weight)
  {
  }

  method DecodeUvarint(data: seq<byte>, start: nat) returns (r: Result<Decoded, Error>)
    ensures r == Decode(data, start)
  {
    var value: nat, shift: nat, offset: nat := 0, 0, start;
    ghost var groups := 0;
    assert Append(0, 0, Decode(data, start)) == Decode(data, start);
    hide BitOr, Pow, Append, DecodeGroups, ShiftLeft;
    while true
      invariant shift == 7 * groups && groups < MAX_GROUPS
      invariant value < Pow(2, shift)
      invariant Decode(data, start) == Append(value, shift, DecodeGroups(data, offset, groups))
      decreases |data| - offset
    {
      if offset >= |data| {
        NoGroup(data, offset, groups, value, shift);
        return Err(UnexpectedEnd);
      }
      var b := data[offset];
      offset := offset + 1;
      ghost var low := value;
      BitOrDisjoint(low, b % 128, shift);
      value := BitOr(value, ShiftLeft(b % 128, shift));
      if b < 128 {
        LastGroup(data, offset - 1, groups, low, shift);
        return Ok(Decoded(value, offset));
      }
      AnotherGroup(data, offset - 1, groups, low, shift);
      shift := shift + 7;
      groups := groups + 1;
      if shift >= 64 {
        return Err(Overflow);
      }
    }
  }

  lemma {:induction false} DecodeEncodeGroups(pre: seq<byte>, v: nat, suffix: seq<byte>, groups: nat)
    requires groups < MAX_GROUPS
    ensures DecodeGroups(pre + Encode(v) + suffix, |pre|, groups)
         == if v < Pow(2, 7 * (MAX_GROUPS - groups)) then Ok(Decoded(v, |pre| + |Encode(v)|)) else Err(Overflow)
    decreases MAX_GROUPS - groups
  {
    var data := pre + Encode(v) + suffix;
    assert data[|pre|] == Encode(v)[0];
    PowMonotone(2, 7, 7 * (MAX_GROUPS - groups));
    assert Pow(2, 7) == 128;
    if v >= 128 && groups + 1 < MAX_GROUPS {
      var pre' := pre + [v % 128 + 128];
      assert data == pre' + Encode(v / 128) + suffix;
      DecodeEncodeGroups(pre', v / 128, suffix, groups + 1);
      PowAdd(2, 7 * (MAX_GROUPS - groups - 1), 7);
    }
  }

  /** Round trip with its exact bound: the encoding of `v`, at any offset and followed by anything, decodes to `v`
      and to the offset after it exactly when `v` fits in 70 bits; every larger value overflows. */
  lemma RoundTrip(pre: seq<byte>, v: nat, suffix: seq<byte>)
    ensures Decode(pre + Encode(v) + suffix, |pre|)
         == if v < LIMIT then Ok(Decoded(v, |pre| + |Encode(v)|)) else Err(Overflow)
  {
    DecodeEncodeGroups(pre, v, suffix, 0);
  }

  lemma {:induction false} DecodedGroups(data: seq<byte>, offset: nat, groups: nat)
    requires groups < MAX_GROUPS && DecodeGroups(data, offset, groups).Ok?
    ensures var d := DecodeGroups(data, offset, groups).value;
            && d.value < Pow(2, 7 * (MAX_GROUPS - groups))
            && offset < d.end <= |data| && d.end - offset <= MAX_GROUPS - groups
            && |Encode(d.value)| <= d.end - offset
            && (|Encode(d.value)| == d.end - offset ==> data[offset..d.end] == Encode(d.value))
    decreases |data| - offset
  {
    var d := DecodeGroups(data, offset, groups).value;
    PowMonotone(2, 7, 7 * (MAX_GROUPS - groups));
    assert Pow(2, 7) == 128;
    if data[offset] < 128 {
      assert data[offset..d.end] == [data[offset]];
    } else {
      DecodedGroups(data, offset + 1, groups + 1);
      var rest := DecodeGroups(data, offset + 1, groups + 1).value;
      PowAdd(2, 7 * (MAX_GROUPS - groups - 1), 7);
      assert data[offset..d.end] == [data[offset]] + data[offset + 1..d.end];
    }
  }

  /** What a successful decode means: the value fits in 70 bits, at least one and at most ten bytes inside the data
      were read, no encoding of the value is shorter than the encoder's, and one as short is the encoder's own. */
  lemma DecodedIsMinimal(data: seq<byte>, offset: nat)
    requires Decode(data, offset).Ok?
    ensures var d := Decode(data, offset).value;
            && d.value < LIMIT
            && offset < d.end <= |data| && d.end - offset <= MAX_GROUPS
            && |Encode(d.value)| <= d.end - offset
            && (|Encode(d.value)| == d.end - offset <==> data[offset..d.end] == Encode(d.value))
  {
    DecodedGroups(data, offset, 0);
  }

  /** The bytes are one varint, possibly longer than it needs to be, of this value. */
  ghost predicate Spells(bytes: seq<byte>, v: nat) {
    Decode(bytes, 0) == Ok(Decoded(v, |bytes|))
  }

  /** A varint reads the same wherever its bytes stand. */
  lemma EndsLater(data: seq<byte>, offset: nat, groups: nat)
    requires groups < MAX_GROUPS && DecodeGroups(data, offset, groups).Ok?
    ensures offset < DecodeGroups(data, offset, groups).value.end <= |data|
  {
    DecodedGroups(data, offset, groups);
  }

  lemma {:induction false} DecodeElsewhere(a: seq<byte>, i: nat, b: seq<byte>, j: nat, groups: nat)
    requires groups < MAX_GROUPS && DecodeGroups(a, i, groups).Ok?
    requires var end := DecodeGroups(a, i, groups).value.end;
             i <= end <= |a| && j + (end - i) <= |b| && a[i..end] == b[j..j + (end - i)]
    ensures var d := DecodeGroups(a, i, groups).value;
            DecodeGroups(b, j, groups) == Ok(Decoded(d.value, j + (d.end - i)))
    decreases |a| - i
  {
    var end := DecodeGroups(a, i, groups).value.end;
    EndsLater(a, i, groups);
    assert a[i..end][0] == a[i] && b[j..j + (end - i)][0] == b[j];
    if a[i] >= 128 {
      EndsLater(a, i + 1, groups + 1);
      assert a[i + 1..end] == a[i..end][1..] && b[j + 1..j + (end - i)] == b[j..j + (end - i)][1..];
      DecodeElsewhere(a, i + 1, b, j + 1, groups + 1);
    }
  }

  lemma SpellingIsRead(pre: seq<byte>, x: seq<byte>, suffix: seq<byte>, v: nat)
    requires Spells(x, v)
    ensures Decode(pre + x + suffix, |pre|) == Ok(Decoded(v, |pre| + |x|))
  {
    assert x[0..|x|] == (pre + x + suffix)[|pre|..|pre| + |x|];
    DecodeElsewhere(x, 0, pre + x + suffix, |pre|, 0);
  }

  lemma ReadIsSpelling(data: seq<byte>, offset: nat)
    requires Decode(data, offset).Ok?
    ensures var d := Decode(data, offset).value;
            offset < d.end <= |data| && Spells(data[offset..d.end], d.value)
  {
    var d := Decode(data, offset).value;
    DecodedGroups(data, offset, 0);
    var x := data[offset..d.end];
    assert x[0..|x|] == data[offset..d.end];
    DecodeElsewhere(data, offset, x, 0, 0);
  }

  lemma EncodeTail(v: nat, x: seq<byte>)
    ensures (Encode(v) + x)[0] == if v < 128 then v else v % 128 + 128
    ensures (Encode(v) + x)[1..] == if v < 128 then x else Encode(v / 128) + x
  {
  }

  /** Encodings of any two values, of any size, are prefix-free: what follows an encoding never changes its reading. */
  lemma {:induction false} PrefixFree(a: nat, b: nat, x: seq<byte>, y: seq<byte>)
    requires Encode(a) + x == Encode(b) + y
    ensures a == b && x == y
  {
    hide Encode;
    EncodeTail(a, x);
    EncodeTail(b, y);
    if a >= 128 {
      PrefixFree(a / 128, b / 128, x, y);
    }
  }
}
