/** Decimal numbers of the Python `decimal` module, as bulk loading uses them: normalising
    rounds to the context precision, and `format(d, "f")` prints all digits. */
module Decimals {
  import opened Division
  import opened Options

  const PRECISION := 28

  /** `Special` is a NaN or an infinity, with its name. */
  datatype Dec = Finite(negative: bool, coefficient: nat, exponent: int) | Special(name: string)

  function Pow10(k: nat): (p: nat)
    ensures p > 0
  {
    if k == 0 then 1 else 10 * Pow10(k - 1)
  }

  function NumDigits(n: nat): (d: nat)
    ensures d >= 1
  {
    if n < 10 then 1 else 1 + NumDigits(n / 10)
  }

  /** `c1 * 10^e1` and `c2 * 10^e2` are the same number. */
  predicate SameValue(c1: nat, e1: int, c2: nat, e2: int) {
    if e1 >= e2 then c1 * Pow10(e1 - e2) == c2 else c1 == c2 * Pow10(e2 - e1)
  }

  /** Scaled to a common exponent, two numbers are the same if their coefficients are. */
  lemma ScaledSame(c1: nat, e1: int, c2: nat, e2: int, m: int)
    requires m <= e1 && m <= e2
    ensures SameValue(c1, e1, c2, e2) <==> c1 * Pow10(e1 - m) == c2 * Pow10(e2 - m)
  {
    if e1 >= e2 {
      PowSum(e1 - e2, e2 - m);
      Cancel(c1, Pow10(e1 - e2), c2, Pow10(e2 - m));
    } else {
      PowSum(e2 - e1, e1 - m);
      Cancel(c2, Pow10(e2 - e1), c1, Pow10(e1 - m));
    }
  }

  lemma Cancel(a: nat, p: nat, b: nat, q: nat)
    requires q > 0
    ensures a * p == b <==> a * (p * q) == b * q
  {
    assert a * (p * q) == (a * p) * q;
    if a * p < b {
      assert (b - a * p) * q > 0;
    } else if a * p > b {
      assert (a * p - b) * q > 0;
    }
  }

  lemma {:induction false} PowSum(a: nat, b: nat)
    ensures Pow10(a + b) == Pow10(a) * Pow10(b)
  {
    if a > 0 {
      PowSum(a - 1, b);
      assert Pow10(a + b) == 10 * Pow10(a - 1 + b);
      assert 10 * (Pow10(a - 1) * Pow10(b)) == 10 * Pow10(a - 1) * Pow10(b);
    }
  }

  /** Two numbers that a third is the same as are the same. */
  lemma SameThrough(c1: nat, e1: int, c2: nat, e2: int, c3: nat, e3: int)
    requires SameValue(c2, e2, c3, e3)
    ensures SameValue(c1, e1, c2, e2) <==> SameValue(c1, e1, c3, e3)
  {
    var m := if e1 <= e2 && e1 <= e3 then e1 else if e2 <= e3 then e2 else e3;
    ScaledSame(c1, e1, c2, e2, m);
    ScaledSame(c2, e2, c3, e3, m);
    ScaledSame(c1, e1, c3, e3, m);
  }

  // ----- normalize -------------------------------------------------------------------------

  /** Round half even to the context precision. */
  function Rounded(c: nat, e: int): (r: (nat, int)) {
    var n := NumDigits(c);
    if n <= PRECISION then (c, e)
    else
      var p := Pow10(n - PRECISION);
      var q, r := c / p, c % p;
      (if 2 * r > p || (2 * r == p && q % 2 == 1) then q + 1 else q, e + (n - PRECISION))
  }

  /** Trailing zeros of the coefficient go into the exponent; zero has exponent 0. */
  function Stripped(c: nat, e: int): (r: (nat, int)) {
    if c == 0 then (0, 0) else (Significant(c), e + TrailingZeros(c))
  }

  function Significant(c: nat): (s: nat)
    requires c > 0
    ensures 0 < s <= c && s % 10 != 0
  {
    if c % 10 == 0 then Significant(c / 10) else c
  }

  function TrailingZeros(c: nat): nat
    requires c > 0
  {
    if c % 10 == 0 then 1 + TrailingZeros(c / 10) else 0
  }

  function Normalize(d: Dec): Dec {
    if d.Special? then d
    else
      var (c, e) := Rounded(d.coefficient, d.exponent);
      var (c', e') := Stripped(c, e);
      Finite(d.negative, c', e')
  }

  /** Digits that are not trailing zeros. */
  function SignificantDigits(c: nat): nat { if c == 0 then 1 else NumDigits(Significant(c)) }

  lemma {:induction false} StripSplits(c: nat)
    requires c > 0
    ensures c == Significant(c) * Pow10(TrailingZeros(c))
    ensures NumDigits(c) == NumDigits(Significant(c)) + TrailingZeros(c)
  {
    if c % 10 == 0 {
      StripSplits(c / 10);
      assert c == 10 * (c / 10);
    }
  }

  lemma {:induction false} ZerosDivide(c: nat, k: nat)
    requires c > 0
    ensures TrailingZeros(c) >= k <==> c % Pow10(k) == 0
  {
    if k > 0 {
      var p := Pow10(k - 1);
      assert c % (10 * p) == 0 <==> c % 10 == 0 && (c / 10) % p == 0 by { DivideTen(c, p); }
      if c % 10 == 0 {
        ZerosDivide(c / 10, k - 1);
      }
    }
  }

  lemma DivideTen(c: nat, p: nat)
    requires p > 0
    ensures c % (10 * p) == 0 <==> c % 10 == 0 && (c / 10) % p == 0
  {
    if c % (10 * p) == 0 {
      var k := c / (10 * p);
      assert c == (10 * p) * k == 10 * (p * k);
      DivUnique(c, 10, p * k, 0);
      DivUnique(c / 10, p, k, 0);
    }
    if c % 10 == 0 && (c / 10) % p == 0 {
      var k := c / 10 / p;
      assert c / 10 == p * k && (10 * p) * k == 10 * (p * k);
      DivUnique(c, 10 * p, k, 0);
    }
  }

  /** Stripping zeros from the rounded coefficient `c1`, which has lost `k` digits of `c`. */
  lemma StripKeeps(c: nat, e: int, c1: nat, k: nat)
    requires c1 > 0
    ensures var (c2, e2) := Stripped(c1, e + k); SameValue(c, e, c2, e2) <==> c == c1 * Pow10(k)
  {
    StripSplits(c1);
    var s, z := Significant(c1), TrailingZeros(c1);
    PowSum(z, k);
    Assoc(s, Pow10(z), Pow10(k));
    ScaledValue(c, e, s, k + z);
  }

  lemma Assoc(x: nat, y: nat, z: nat)
    ensures x * (y * z) == x * y * z
  {
  }

  lemma ScaledValue(c: nat, e: int, s: nat, k: nat)
    ensures SameValue(c, e, s, e + k) <==> c == s * Pow10(k)
  {
    assert Pow10(0) == 1;
    if k == 0 {
      assert c * 1 == c && s * 1 == s;
    }
  }

  lemma RoundedExact(c: nat, e: int)
    requires NumDigits(c) > PRECISION
    ensures var (c1, e1) := Rounded(c, e); var k := NumDigits(c) - PRECISION;
            c1 > 0 && e1 == e + k && (c == c1 * Pow10(k) <==> c % Pow10(k) == 0)
  {
    var k := NumDigits(c) - PRECISION;
    Shortened(c, k);
    Nearest(c, Pow10(k), Rounded(c, e).0);
  }

  lemma Nearest(c: nat, p: nat, c1: nat)
    requires p > 0 && (c1 == c / p || (c1 == c / p + 1 && c % p > 0))
    ensures c == c1 * p <==> c % p == 0
  {
    Split(c, p);
  }

  lemma {:induction false} Shortened(c: nat, k: nat)
    requires k < NumDigits(c)
    ensures NumDigits(c / Pow10(k)) == NumDigits(c) - k
    ensures c / Pow10(k) > 0 || NumDigits(c) == k + 1
    ensures k > 0 ==> c / Pow10(k) > 0
  {
    if k > 0 {
      Shortened(c / 10, k - 1);
      DivideTwice(c, Pow10(k - 1));
      if k == 1 {
        assert Pow10(0) == 1;
      }
    }
  }

  lemma DivideTwice(c: nat, p: nat)
    requires p > 0
    ensures c / (10 * p) == c / 10 / p
  {
    var k := c / 10 / p;
    var r := c / 10 % p;
    assert c / 10 == p * k + r;
    var rest := 10 * r + c % 10;
    assert c == (10 * p) * k + rest by { assert 10 * (p * k) == (10 * p) * k; }
    assert 0 <= rest < 10 * p;
    DivUnique(c, 10 * p, k, rest);
  }

  /** `normalize` keeps the value if and only if the number has at most 28 digits besides
      trailing zeros. */
  lemma NormalizeExactly(d: Dec)
    requires d.Finite?
    ensures var n := Normalize(d);
            SameValue(d.coefficient, d.exponent, n.coefficient, n.exponent) <==> SignificantDigits(d.coefficient) <= PRECISION
  {
    var c, e := d.coefficient, d.exponent;
    if c > 0 {
      StripSplits(c);
      if NumDigits(c) <= PRECISION {
        StripKeeps(c, e, c, 0);
        assert Pow10(0) == 1;
      } else {
        var k := NumDigits(c) - PRECISION;
        RoundedExact(c, e);
        ZerosDivide(c, k);
        StripKeeps(c, e, Rounded(c, e).0, k);
      }
    }
  }

  // ----- text --------------------------------------------------------------------------------

  function Digit(d: nat): char
    requires d < 10
  {
    '0' + d as char
  }

  predicate IsDigit(c: char) { '0' <= c <= '9' }

  predicate AllDigits(s: string) { forall i :: 0 <= i < |s| ==> IsDigit(s[i]) }

  /** `str(n)`. */
  function NatText(n: nat): (s: string)
    ensures AllDigits(s) && |s| == NumDigits(n)
  {
    if n < 10 then [Digit(n)] else NatText(n / 10) + [Digit(n % 10)]
  }

  function IntText(n: int): string { if n < 0 then "-" + NatText(-n) else NatText(n) }

  function DigitsValue(s: string): nat
    requires AllDigits(s)
  {
    if s == "" then 0 else 10 * DigitsValue(s[..|s| - 1]) + (s[|s| - 1] as int - '0' as int)
  }

  lemma {:induction false} NatTextRead(n: nat)
    ensures DigitsValue(NatText(n)) == n
  {
    if n >= 10 {
      NatTextRead(n / 10);
      assert NatText(n)[..|NatText(n)| - 1] == NatText(n / 10);
    } else {
      assert NatText(n)[..0] == "";
    }
  }

  function Zeros(k: nat): (s: string)
    ensures AllDigits(s) && |s| == k
  {
    seq(k, _ => '0')
  }

  lemma {:induction false} TrailingZerosRead(s: string, k: nat)
    requires AllDigits(s)
    ensures DigitsValue(s + Zeros(k)) == DigitsValue(s) * Pow10(k)
  {
    if k == 0 {
      assert s + Zeros(0) == s;
    } else {
      assert (s + Zeros(k))[..|s| + k - 1] == s + Zeros(k - 1);
      TrailingZerosRead(s, k - 1);
      assert 10 * (DigitsValue(s) * Pow10(k - 1)) == DigitsValue(s) * (10 * Pow10(k - 1));
    }
  }

  lemma {:induction false} LeadingZerosRead(k: nat, s: string)
    requires AllDigits(s)
    ensures DigitsValue(Zeros(k) + s) == DigitsValue(s)
    decreases |s| + k
  {
    if s == "" {
      if k > 0 {
        assert (Zeros(k) + s)[..k - 1] == Zeros(k - 1) + s;
        LeadingZerosRead(k - 1, s);
      } else {
        assert Zeros(0) + s == s;
      }
    } else {
      assert (Zeros(k) + s)[..k + |s| - 1] == Zeros(k) + s[..|s| - 1];
      LeadingZerosRead(k, s[..|s| - 1]);
    }
  }

  /** `format(d, "f")`: all digits, with a decimal point if there are decimal places. */
  function FixedText(negative: bool, c: nat, e: int): string {
    if negative then "-" + FixedBody(c, e) else FixedBody(c, e)
  }

  function FixedBody(c: nat, e: int): string {
    if e >= 0 then if c == 0 then "0" else NatText(c) + Zeros(e)
    else
      var all := Padded(c, -e);
      all[..|all| + e] + ("." + all[|all| + e..])
  }

  /** The digits of `c`, at least one more than `places`. */
  function Padded(c: nat, places: nat): (s: string)
    ensures AllDigits(s) && |s| > places
  {
    var s := NatText(c);
    if |s| > places then s else Zeros(places + 1 - |s|) + s
  }

  /** What a decimal text without exponent denotes: sign, digits, and decimal places. */
  function ReadFixed(t: string): Option<(bool, nat, nat)> {
    if t != "" && t[0] == '-' then ReadUnsigned(true, t[1..]) else ReadUnsigned(false, t)
  }

  function ReadUnsigned(negative: bool, t: string): Option<(bool, nat, nat)> {
    var k := PointAt(t);
    if k == |t| then if t != "" && AllDigits(t) then Some((negative, DigitsValue(t), 0)) else None
    else
      var whole, frac := t[..k], t[k + 1..];
      if whole != "" && AllDigits(whole) && AllDigits(frac) then Some((negative, DigitsValue(whole + frac), |frac|)) else None
  }

  function PointAt(t: string): (k: nat)
    ensures k <= |t| && (k < |t| ==> t[k] == '.')
    ensures forall i :: 0 <= i < k ==> t[i] != '.'
  {
    if t == "" || t[0] == '.' then 0 else 1 + PointAt(t[1..])
  }

  lemma UnsignedRead(negative: bool, whole: string, frac: string)
    requires whole != "" && AllDigits(whole) && AllDigits(frac)
    ensures ReadUnsigned(negative, whole + ("." + frac)) == Some((negative, DigitsValue(whole + frac), |frac|))
    ensures ReadUnsigned(negative, whole) == Some((negative, DigitsValue(whole), 0))
  {
    var t := whole + ("." + frac);
    assert t[|whole|] == '.' && PointAt(t) == |whole|;
    assert t[..|whole|] == whole && t[|whole| + 1..] == frac;
    assert PointAt(whole) == |whole|;
  }

  lemma WholeRead(negative: bool, c: nat, e: nat)
    ensures ReadUnsigned(negative, FixedBody(c, e)) == Some((negative, c * Pow10(e), 0))
  {
    if c == 0 {
      UnsignedRead(negative, "0", "");
      assert DigitsValue("0"[..0]) == 0;
    } else {
      NatTextRead(c);
      TrailingZerosRead(NatText(c), e);
      UnsignedRead(negative, NatText(c) + Zeros(e), "");
    }
  }

  lemma PaddedRead(c: nat, places: nat)
    ensures DigitsValue(Padded(c, places)) == c
  {
    NatTextRead(c);
    if |NatText(c)| <= places {
      LeadingZerosRead(places + 1 - |NatText(c)|, NatText(c));
    }
  }

  lemma FractionRead(negative: bool, c: nat, places: nat)
    requires places > 0
    ensures ReadUnsigned(negative, FixedBody(c, 0 - places)) == Some((negative, c, places))
  {
    var all := Padded(c, places);
    PaddedRead(c, places);
    CutRead(negative, all, |all| - places);
  }

  lemma CutRead(negative: bool, all: string, cut: nat)
    requires AllDigits(all) && 0 < cut <= |all|
    ensures ReadUnsigned(negative, all[..cut] + ("." + all[cut..])) == Some((negative, DigitsValue(all), |all| - cut))
  {
    var whole, frac := all[..cut], all[cut..];
    UnsignedRead(negative, whole, frac);
    Rejoined(all, whole, frac);
  }

  lemma Rejoined(all: string, whole: string, frac: string)
    requires |whole| <= |all| && whole == all[..|whole|] && frac == all[|whole|..]
    ensures whole + frac == all
  {
  }

  lemma SignRead(negative: bool, c: nat, e: int)
    ensures ReadFixed(FixedText(negative, c, e)) == ReadUnsigned(negative, FixedBody(c, e))
  {
    var body := FixedBody(c, e);
    assert IsDigit(body[0]);
    if negative {
      assert FixedText(true, c, e)[1..] == body;
    }
  }

  /** The text is the number, sign included. */
  predicate SameNumber(t: string, negative: bool, c: nat, e: int) {
    var r := ReadFixed(t);
    r.Some? && r.value.0 == negative && SameValue(c, e, r.value.1, 0 - r.value.2)
  }

  /** The fixed-point text denotes the number, digit for digit. */
  lemma FixedTextRead(negative: bool, c: nat, e: int)
    ensures SameNumber(FixedText(negative, c, e), negative, c, e)
  {
    SignRead(negative, c, e);
    SameScaled(c, e);
    if e >= 0 {
      WholeRead(negative, c, e);
    } else {
      FractionRead(negative, c, -e);
    }
  }

  lemma SameScaled(c: nat, e: int)
    ensures if e >= 0 then SameValue(c, e, c * Pow10(e), 0) else SameValue(c, e, c, e)
  {
    assert Pow10(0) == 1;
  }

  lemma SameText(t: string, negative: bool, c1: nat, e1: int, c2: nat, e2: int)
    requires SameNumber(t, negative, c2, e2)
    ensures SameNumber(t, negative, c1, e1) <==> SameValue(c1, e1, c2, e2)
  {
    var r := ReadFixed(t).value;
    var places: int := r.2;
    SameThrough(c1, e1, c2, e2, r.1, -places);
  }

  /** The text of a normalised number denotes the number itself, if and only if normalising
      did not round it. */
  lemma NormalTextExactly(d: Dec)
    requires d.Finite?
    ensures var n := Normalize(d);
            SameNumber(FixedText(n.negative, n.coefficient, n.exponent), d.negative, d.coefficient, d.exponent)
            <==> SignificantDigits(d.coefficient) <= PRECISION
  {
    var n := Normalize(d);
    NormalizeExactly(d);
    FixedTextRead(n.negative, n.coefficient, n.exponent);
    SameText(FixedText(n.negative, n.coefficient, n.exponent), d.negative, d.coefficient, d.exponent, n.coefficient, n.exponent);
  }

  lemma IntTextDenotes(n: int)
    ensures SameNumber(IntText(n), n < 0, if n < 0 then -n else n, 0)
  {
    IntTextRead(n);
    assert Pow10(0) == 1;
  }

  lemma IntTextRead(n: int)
    ensures ReadFixed(IntText(n)) == Some((n < 0, if n < 0 then -n else n, 0))
  {
    var m: nat := if n < 0 then -n else n;
    NatTextRead(m);
    UnsignedRead(n < 0, NatText(m), "");
    assert IsDigit(NatText(m)[0]);
    if n < 0 {
      assert IntText(n)[1..] == NatText(m);
    }
  }

  // ----- digits before and after the point ----------------------------------------------------

  /** `_decimal_shape`: integer digits and scale of a finite number. */
  function Shape(c: nat, e: int): (nat, nat) {
    var count := NumDigits(c);
    if e >= 0 then (count + e, 0) else (if count + e > 0 then count + e else 0, -e)
  }

  /** Rounding the coefficient carries into one more digit: nines all the way. */
  predicate Carries(c: nat) { NumDigits(c) > PRECISION && Rounded(c, 0).0 == Pow10(PRECISION) }

  lemma {:induction false} DigitsBound(c: nat, k: nat)
    requires k > 0
    ensures NumDigits(c) <= k <==> c < Pow10(k)
  {
    if k > 1 {
      DigitsBound(c / 10, k - 1);
      assert c / 10 < Pow10(k - 1) <==> c < 10 * Pow10(k - 1);
    } else {
      assert Pow10(1) == 10 * Pow10(0) == 10;
    }
  }

  /** Rounding leaves 28 digits, or the power of ten that has 29. */
  lemma RoundedDigits(c: nat, e: int)
    requires NumDigits(c) > PRECISION
    ensures var c1 := Rounded(c, e).0; c1 > 0 && NumDigits(c1) == if Carries(c) then PRECISION + 1 else PRECISION
  {
    var k := NumDigits(c) - PRECISION;
    var q := c / Pow10(k);
    var c1 := Rounded(c, e).0;
    assert c1 == Rounded(c, 0).0;
    Shortened(c, k);
    DigitsBound(q, PRECISION);
    DigitsBound(q, PRECISION - 1);
    DigitsBound(c1, PRECISION);
    DigitsBound(c1, PRECISION - 1);
    DigitsBound(c1, PRECISION + 1);
    assert q <= c1 <= q + 1;
    assert Pow10(PRECISION + 1) == 10 * Pow10(PRECISION);
  }

  lemma StrippedShape(c: nat, e: nat)
    requires c > 0
    ensures var (s, e') := Stripped(c, e); e' >= 0 && Shape(s, e') == (NumDigits(c) + e, 0)
  {
    StripSplits(c);
  }

  /** The integer digits of a whole number after normalising. */
  lemma WholeShape(negative: bool, c: nat)
    ensures var n := Normalize(Finite(negative, c, 0));
            n.exponent >= 0 && Shape(n.coefficient, n.exponent) == (NumDigits(c) + (if Carries(c) then 1 else 0), 0)
  {
    if c > 0 {
      if NumDigits(c) > PRECISION {
        RoundedDigits(c, 0);
      }
      StrippedShape(Rounded(c, 0).0, Rounded(c, 0).1);
    }
  }

  lemma NinesDigits(k: nat)
    requires k > 1
    ensures NumDigits(Pow10(k) - 1) == k
  {
    var c := Pow10(k) - 1;
    assert Pow10(k) == 10 * Pow10(k - 1);
    DigitsBound(c, k);
    DigitsBound(c, k - 1);
  }

  lemma NinesSplit(c: nat, p: nat, q: nat)
    requires p > 0 && q > 0 && c + 1 == p * q
    ensures c / p == q - 1 && c % p == p - 1
  {
    assert c == p * (q - 1) + (p - 1);
    DivUnique(c, p, q - 1, p - 1);
  }

  /** Numbers of more than 28 nines carry. */
  lemma NinesCarry(k: nat)
    requires k > PRECISION
    ensures NumDigits(Pow10(k) - 1) == k && Carries(Pow10(k) - 1)
  {
    var c, p, q := Pow10(k) - 1, Pow10(k - PRECISION), Pow10(PRECISION);
    NinesDigits(k);
    PowSum(k - PRECISION, PRECISION);
    NinesSplit(c, p, q);
    TenOrMore(k - PRECISION);
    RoundsUp(c, p, q);
  }

  lemma TenOrMore(k: nat)
    requires k > 0
    ensures Pow10(k) >= 10
  {
  }

  lemma RoundsUp(c: nat, p: nat, q: nat)
    requires NumDigits(c) > PRECISION && p == Pow10(NumDigits(c) - PRECISION) && q == Pow10(PRECISION)
    requires p > 2 && c / p == q - 1 && c % p == p - 1
    ensures Carries(c)
  {
  }
}
