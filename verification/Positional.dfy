/** Positional notation, most significant digit first.  It is the common ground of `int.to_bytes`,
    `int.from_bytes`, the 40-bit quanta of base32 and the digits of an identifier. */
module Positional {

  type byte = x: int | 0 <= x < 256

  function Pow(base: nat, n: nat): (p: nat)
    ensures base > 0 ==> p > 0
  {
    if n == 0 then 1 else base * Pow(base, n - 1)
  }

  /** The value of a digit string. */
  function FromDigits(base: nat, digits: seq<nat>): nat {
    if digits == [] then 0
    else FromDigits(base, digits[..|digits| - 1]) * base + digits[|digits| - 1]
  }

  /** The `n` least significant digits of `v`. */
  function ToDigits(base: nat, n: nat, v: nat): (digits: seq<nat>)
    requires base > 0
    ensures |digits| == n
    ensures forall i :: 0 <= i < n ==> digits[i] < base
  {
    if n == 0 then [] else ToDigits(base, n - 1, v / base) + [v % base]
  }

  predicate DigitsOf(base: nat, digits: seq<nat>) {
    forall i :: 0 <= i < |digits| ==> digits[i] < base
  }

  function Zeros(n: nat): (zs: seq<nat>) {
    seq(n, i => 0)
  }

  lemma MulAssociates(a: nat, b: nat, c: nat)
    ensures a * (b * c) == (a * b) * c
  {
  }

  lemma {:induction false} PowAdd(base: nat, m: nat, n: nat)
    ensures Pow(base, m + n) == Pow(base, m) * Pow(base, n)
  {
    if m == 0 {
    } else {
      PowAdd(base, m - 1, n);
      MulAssociates(base, Pow(base, m - 1), Pow(base, n));
    }
  }

  lemma {:induction false} PowMonotone(base: nat, m: nat, n: nat)
    requires base > 0 && m <= n
    ensures Pow(base, m) <= Pow(base, n)
  {
    PowAdd(base, m, n - m);
    assert Pow(base, n - m) >= 1;
    MulAtLeast(Pow(base, m), Pow(base, n - m));
  }

  lemma MulAtLeast(a: nat, b: nat)
    requires b >= 1
    ensures a <= a * b
  {
    assert a * b == a + a * (b - 1);
  }

  lemma DivBelow(v: nat, base: nat, bound: nat)
    requires base > 0 && v < base * bound
    ensures v / base < bound
  {
    var q, r := v / base, v % base;
    assert v == base * q + r;
    if q >= bound {
      MulMonotone(base, bound, q);
    }
  }

  lemma MulMonotone(a: nat, x: int, y: int)
    requires x <= y
    ensures a * x <= a * y
  {
    assert a * y - a * x == a * (y - x);
  }

  lemma FundamentalDivMod(v: nat, base: nat)
    requires base > 0
    ensures v == v / base * base + v % base
  {
  }

  lemma DivModUnique(base: nat, q: nat, r: nat)
    requires r < base
    ensures (q * base + r) / base == q && (q * base + r) % base == r
  {
    var v := q * base + r;
    QuotientUnique(base, q, r, v / base, v % base);
  }

  lemma QuotientUnique(base: nat, q: nat, r: nat, q': nat, r': nat)
    requires r < base && r' < base && q * base + r == q' * base + r'
    ensures q == q' && r == r'
  {
    if q < q' {
      MulMonotone(base, q + 1, q');
    } else if q' < q {
      MulMonotone(base, q' + 1, q);
    }
  }

  lemma {:induction false} FromDigitsBound(base: nat, digits: seq<nat>)
    requires base > 0 && DigitsOf(base, digits)
    ensures FromDigits(base, digits) < Pow(base, |digits|)
  {
    if digits == [] {
    } else {
      var init := digits[..|digits| - 1];
      FromDigitsBound(base, init);
      MulMonotone(base, FromDigits(base, init) + 1, Pow(base, |init|));
      assert base * (FromDigits(base, init) + 1) == FromDigits(base, init) * base + base;
    }
  }

  lemma Snoc(base: nat, init: seq<nat>, last: nat)
    ensures FromDigits(base, init + [last]) == FromDigits(base, init) * base + last
  {
    assert (init + [last])[..|init|] == init;
  }

  /** Writing a number in enough digits and reading it back gives the number. */
  lemma {:induction false} ToFromDigits(base: nat, n: nat, v: nat)
    requires base > 0 && v < Pow(base, n)
    ensures FromDigits(base, ToDigits(base, n, v)) == v
  {
    if n == 0 {
    } else {
      DivBelow(v, base, Pow(base, n - 1));
      ToFromDigits(base, n - 1, v / base);
      Snoc(base, ToDigits(base, n - 1, v / base), v % base);
      FundamentalDivMod(v, base);
    }
  }

  /** Reading a digit string and writing it back in as many digits gives the string. */
  lemma {:induction false} FromToDigits(base: nat, digits: seq<nat>)
    requires base > 0 && DigitsOf(base, digits)
    ensures ToDigits(base, |digits|, FromDigits(base, digits)) == digits
  {
    if digits == [] {
    } else {
      var init := digits[..|digits| - 1];
      FromToDigits(base, init);
      DivModUnique(base, FromDigits(base, init), digits[|digits| - 1]);
      assert digits == init + [digits[|digits| - 1]];
    }
  }

  lemma Horner(h: nat, p: nat, l: nat, base: nat)
    ensures (h * p + l) * base == h * (base * p) + l * base
  {
    MulAssociates(h, p, base);
  }

  lemma {:induction false} FromDigitsConcat(base: nat, high: seq<nat>, low: seq<nat>)
    ensures FromDigits(base, high + low) == FromDigits(base, high) * Pow(base, |low|) + FromDigits(base, low)
  {
    if low == [] {
      assert high + low == high;
    } else {
      var init, last := low[..|low| - 1], low[|low| - 1];
      FromDigitsConcat(base, high, init);
      assert (high + low)[..|high + low| - 1] == high + init;
      Horner(FromDigits(base, high), Pow(base, |init|), FromDigits(base, init), base);
    }
  }

  lemma {:induction false} FromDigitsZeros(base: nat, n: nat)
    ensures FromDigits(base, Zeros(n)) == 0
  {
    if n == 0 {
    } else {
      assert Zeros(n)[..n - 1] == Zeros(n - 1);
      FromDigitsZeros(base, n - 1);
    }
  }

  /** The top `m` of `n` digits are the digits of the value shifted down. */
  lemma {:induction false} ToDigitsPrefix(base: nat, n: nat, m: nat, v: nat)
    requires base > 0 && m <= n
    ensures ToDigits(base, n, v)[..m] == ToDigits(base, m, v / Pow(base, n - m))
  {
    if m == n {
    } else {
      ToDigitsPrefix(base, n - 1, m, v / base);
      assert ToDigits(base, n, v)[..m] == ToDigits(base, n - 1, v / base)[..m];
      DivDiv(v, base, Pow(base, n - 1 - m));
    }
  }

  lemma DivDiv(v: nat, a: nat, b: nat)
    requires a > 0 && b > 0
    ensures a * b > 0 && v / a / b == v / (a * b)
  {
    var x, y := v / a, v % a;
    var q, r := x / b, x % b;
    FundamentalDivMod(v, a);
    FundamentalDivMod(x, b);
    Nested(a, b, x, y, q, r);
    MulMonotone(a, 1, b);
    DivModUnique(a * b, q, a * r + y);
  }

  lemma Nested(a: nat, b: nat, x: nat, y: nat, q: nat, r: nat)
    requires y < a && r < b && x == q * b + r
    ensures x * a + y == q * (a * b) + (a * r + y) && a * r + y < a * b
  {
    assert (q * b + r) * a == q * (a * b) + a * r;
    MulMonotone(a, r + 1, b);
    assert a * (r + 1) == a * r + a;
  }

  /** The number of bits of `n`: Python's `int.bit_length`. */
  function BitLength(n: nat): nat {
    if n == 0 then 0 else 1 + BitLength(n / 2)
  }

  lemma {:induction false} BitLengthBounds(n: nat)
    ensures n < Pow(2, BitLength(n))
    ensures n > 0 ==> BitLength(n) > 0 && Pow(2, BitLength(n) - 1) <= n
  {
    if n == 0 {
    } else {
      BitLengthBounds(n / 2);
      if n / 2 > 0 {
        assert Pow(2, BitLength(n) - 1) == 2 * Pow(2, BitLength(n / 2) - 1);
      }
    }
  }

  /** `BitLength` is the least width: a number fits in `k` bits exactly when its bit length is at most `k`. */
  lemma {:induction false} BitLengthLeast(n: nat, k: nat)
    ensures n < Pow(2, k) <==> BitLength(n) <= k
  {
    BitLengthBounds(n);
    if BitLength(n) <= k {
      PowMonotone(2, BitLength(n), k);
    } else if n > 0 {
      PowMonotone(2, k, BitLength(n) - 1);
    }
  }
}
