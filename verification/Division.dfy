/** Division with remainder, for the places where the divisor is not a constant. */
module Division {

  /** A multiple of `m` other than zero is at least `m` in size. */
  lemma Multiples(m: int, d: int)
    requires m > 0
    ensures d >= 1 ==> m * d >= m
    ensures d <= -1 ==> m * d <= -m
  {
    if d >= 1 {
      NotNegative(m, d - 1);
      assert m * d == m * (d - 1) + m;
    } else if d <= -1 {
      NotNegative(m, -d - 1);
      assert m * d == -(m * (-d - 1)) - m;
    }
  }

  lemma {:induction false} NotNegative(x: nat, y: nat)
    ensures x * y >= 0
    decreases y
  {
    if y > 0 {
      NotNegative(x, y - 1);
      assert x * y == x * (y - 1) + x;
    }
  }

  /** Quotient and remainder are the only ones. */
  lemma DivUnique(x: int, m: int, k: int, r: int)
    requires 0 <= r < m && x == m * k + r
    ensures x / m == k && x % m == r
  {
    var d := k - x / m;
    assert m * d == m * k - m * (x / m);
    Multiples(m, d);
  }

  /** A multiple of the divisor goes into the quotient. */
  lemma DivShift(x: int, m: int, k: int)
    requires m > 0
    ensures (m * k + x) / m == k + x / m && (m * k + x) % m == x % m
  {
    assert m * (k + x / m) == m * k + m * (x / m);
    DivUnique(m * k + x, m, k + x / m, x % m);
  }

  /** The quotient is where the multiples enclose the number. */
  lemma DivIs(x: int, m: int, k: int)
    requires m > 0
    ensures x / m == k <==> m * k <= x < m * k + m
  {
    if m * k <= x < m * k + m {
      DivUnique(x, m, k, x - m * k);
    } else {
      assert x == m * (x / m) + x % m;
    }
  }

  /** Products with a positive factor keep their order. */
  lemma Ordered(x: real, y: real, b: real)
    requires b > 0.0
    ensures x < y <==> x * b < y * b
  {
    if x < y {
      Positive(y - x, b);
      assert (y - x) * b == y * b - x * b;
    } else if y < x {
      Positive(x - y, b);
      assert (x - y) * b == x * b - y * b;
    }
  }

  lemma Positive(d: real, b: real)
    requires d > 0.0 && b > 0.0
    ensures d * b > 0.0
  {
  }

  lemma RealProduct(k: int, b: int)
    ensures (k * b) as real == k as real * b as real
  {
  }

  /** Comparing with a whole number after multiplying. */
  lemma AgainstWhole(q: real, k: int, b: int, kb: int)
    requires b > 0 && kb == k * b
    ensures q * b as real < kb as real <==> q < k as real
    ensures kb as real < q * b as real <==> k as real < q
  {
    RealProduct(k, b);
    Ordered(q, k as real, b as real);
    Ordered(k as real, q, b as real);
  }

  lemma Split(a: int, b: int)
    requires b > 0
    ensures a == a / b * b + a % b && 0 <= a % b < b && (a / b + 1) * b == a / b * b + b
  {
  }

  /** A quotient of a number that is not negative is not negative and not larger. */
  lemma QuotientBound(a: int, b: int)
    requires b > 0 && a >= 0
    ensures 0 <= a / b <= a
  {
    var k := a / b;
    assert a == b * k + a % b;
    Multiples(b, k);
    if k > 0 {
      Multiples(k, b - 1);
      assert b * k == k * (b - 1) + k;
    }
  }
}
