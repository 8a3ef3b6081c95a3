/** Go's integer conventions that the handlers rely on: the int64 range and
    rounding toward zero, which is what Go's integer `/` and its float-to-int
    conversion `int(x)` do (Dafny's own `/` on `int` is Euclidean and rounds
    negative quotients down instead). */
module GoArith {

  const MinInt64: int := -0x8000_0000_0000_0000
  const MaxInt64: int := 0x7fff_ffff_ffff_ffff

  predicate InInt64(x: int) {
    MinInt64 <= x <= MaxInt64
  }

  /** Go's int64. */
  type Int64 = x: int | InInt64(x)

  /** `q` is `a` divided by `b` with the remainder dropped toward zero: the
      remainder `a - q * b` has the sign of `a` and is smaller than `b`. */
  predicate IsQuot(a: int, b: int, q: int)
    requires b > 0
  {
    if a >= 0 then 0 <= a - q * b < b else -b < a - q * b <= 0
  }

  /** Go's `a / b` on integers, for a positive divisor. */
  function Quot(a: int, b: int): (q: int)
    requires b > 0
    ensures IsQuot(a, b, q)
    ensures 0 <= a ==> 0 <= q <= a
    ensures a <= 0 ==> a <= q <= 0
  {
    if a >= 0 then
      EuclidNonNeg(a, b);
      a / b
    else
      EuclidNonNeg(-a, b);
      -((-a) / b)
  }

  /** Dafny's own division on a non-negative dividend. */
  lemma EuclidNonNeg(m: int, b: int)
    requires m >= 0 && b > 0
    ensures IsQuot(m, b, m / b) && IsQuot(-m, b, -(m / b))
    ensures 0 <= m / b <= m
  {
    var q := m / b;
    assert m == q * b + m % b;
    MulMonotone(q, 0, b);
    if q > 0 {
      MulMonotone(b, 1, q);
    }
    assert -m - (-q) * b == -(m - q * b);
  }

  /** IsQuot pins the quotient down: there is only one. */
  lemma QuotUnique(a: int, b: int, q: int, q': int)
    requires b > 0 && IsQuot(a, b, q) && IsQuot(a, b, q')
    ensures q == q'
  {
    var d := q - q';
    assert d * b == (a - q' * b) - (a - q * b);
    MulAwayFromZero(d, b);
  }

  /** A nonzero multiple of `b` is at least `b` away from zero. */
  lemma MulAwayFromZero(d: int, b: int)
    requires b > 0
    ensures d >= 1 ==> d * b >= b
    ensures d <= -1 ==> d * b <= -b
  {
    if d >= 1 {
      assert d * b - b == (d - 1) * b;
    } else if d <= -1 {
      assert d * b + b == (d + 1) * b;
    }
  }

  lemma MulMonotone(x: int, y: int, b: int)
    requires x >= y && b > 0
    ensures x * b >= y * b
  {
    assert x * b - y * b == (x - y) * b;
  }

  /** Truncation is symmetric about zero: negating the dividend negates the quotient. */
  lemma QuotNegate(a: int, b: int)
    requires b > 0
    ensures Quot(-a, b) == -Quot(a, b)
  {
    var q := Quot(a, b);
    assert IsQuot(-a, b, -q) by {
      assert -a - (-q) * b == -(a - q * b);
    }
    QuotUnique(-a, b, Quot(-a, b), -q);
  }

  /** Dividing in two truncating steps is dividing once by the product. */
  lemma QuotQuot(a: int, b: int, c: int)
    requires b > 0 && c > 0
    ensures Quot(Quot(a, b), c) == Quot(a, b * c)
  {
    var q1 := Quot(a, b);
    var q2 := Quot(q1, c);
    TwoSteps(a, b, c, q1, q2);
    QuotUnique(a, b * c, q2, Quot(a, b * c));
  }

  lemma TwoSteps(a: int, b: int, c: int, q1: int, q2: int)
    requires b > 0 && c > 0
    requires IsQuot(a, b, q1) && IsQuot(q1, c, q2)
    requires a >= 0 ==> q1 >= 0
    requires a < 0 ==> q1 <= 0
    ensures IsQuot(a, b * c, q2)
  {
    if q1 == 0 {
      MulAwayFromZero(q2, c);
    }
    var r1 := a - q1 * b;
    var r2 := q1 - q2 * c;
    assert a - q2 * (b * c) == r2 * b + r1 by {
      Distribute(q2, c, r2, b);
    }
    assert (c - 1) * b + b == b * c;
    if a >= 0 {
      MulMonotone(c - 1, r2, b);
      MulMonotone(r2, 0, b);
    } else {
      MulMonotone(r2, 1 - c, b);
      MulMonotone(0, r2, b);
      assert (1 - c) * b == -((c - 1) * b);
    }
  }

  lemma Distribute(q: int, c: int, r: int, b: int)
    ensures (q * c + r) * b == q * (b * c) + r * b
  {
  }

  /** Where truncation and Dafny's floor division part ways: a negative
      dividend that is not a multiple of the divisor. */
  lemma QuotVersusFloor(a: int, b: int)
    requires b > 0
    ensures a >= 0 || a % b == 0 ==> Quot(a, b) == a / b
    ensures a < 0 && a % b != 0 ==> Quot(a, b) == a / b + 1
  {
    if a < 0 {
      var q := a / b;
      var r := a % b;
      assert a == q * b + r && 0 <= r < b;
      if r == 0 {
        assert IsQuot(a, b, q);
      } else {
        assert a - (q + 1) * b == r - b;
        assert IsQuot(a, b, q + 1);
      }
      QuotUnique(a, b, Quot(a, b), if r == 0 then q else q + 1);
    }
  }

  /** Go's conversion `int64(x)` of a float (here: a real) to an integer: the
      fraction is dropped toward zero. */
  function TruncReal(x: real): (n: int)
    ensures x >= 0.0 ==> 0 <= n && n as real <= x < n as real + 1.0
    ensures x < 0.0 ==> n <= 0 && n as real - 1.0 < x <= n as real
  {
    if x >= 0.0 then x.Floor else -((-x).Floor)
  }

  /** Converting an exact integer-valued quotient `d / b` with `int(...)`
      is Go's integer division `d / b`. */
  lemma TruncRealDiv(d: int, b: int)
    requires b > 0
    ensures TruncReal(d as real / b as real) == Quot(d, b)
  {
    var q := Quot(d, b);
    var x := d as real / b as real;
    RealQuotBounds(d, b, q);
    if d >= 0 {
      assert q as real <= x < q as real + 1.0;
    } else {
      assert q as real - 1.0 < x <= q as real;
    }
  }

  lemma RealQuotBounds(d: int, b: int, q: int)
    requires b > 0 && IsQuot(d, b, q)
    ensures d >= 0 ==> q as real <= d as real / b as real < q as real + 1.0
    ensures d < 0 ==> q as real - 1.0 < d as real / b as real <= q as real
  {
    var br, qr, dr := b as real, q as real, d as real;
    var x := dr / br;
    var p := q * b;
    DivMul(dr, br);
    CastMul(q, b);
    assert p as real == qr * br;
    if d >= 0 {
      assert p <= d < p + b;
      RealBetween(x, dr, br, qr);
    } else {
      assert p - b < d <= p;
      RealBetweenNeg(x, dr, br, qr);
    }
  }

  lemma DivMul(dr: real, br: real)
    requires br > 0.0
    ensures (dr / br) * br == dr
  {
  }

  lemma CastMul(q: int, b: int)
    ensures (q * b) as real == q as real * b as real
  {
  }

  lemma RealBetween(x: real, d: real, b: real, q: real)
    requires b > 0.0 && x * b == d
    requires q * b <= d < q * b + b
    ensures q <= x < q + 1.0
  {
    RealMulMono(x, q + 1.0, b);
    RealMulMono(q, x, b);
  }

  lemma RealBetweenNeg(x: real, d: real, b: real, q: real)
    requires b > 0.0 && x * b == d
    requires q * b - b < d <= q * b
    ensures q - 1.0 < x <= q
  {
    RealMulMono(q - 1.0, x, b);
    RealMulMono(x, q, b);
  }

  lemma RealMulMono(x: real, y: real, b: real)
    requires b > 0.0
    ensures x >= y ==> x * b >= y * b
    ensures x > y ==> x * b > y * b
  {
    if x >= y {
      assert x * b - y * b == (x - y) * b;
    }
  }

  /** Whole seconds of a millisecond count: dropping the fraction of the
      float first and then dividing by 1000 gives the same as dividing the
      float by 1000 and dropping the fraction once. */
  lemma MillisToSeconds(x: real)
    ensures Quot(TruncReal(x), 1000) == TruncReal(x / 1000.0)
  {
    var n := TruncReal(x);
    var q := Quot(n, 1000);
    var y := x / 1000.0;
    if x >= 0.0 {
      assert q as real <= y < q as real + 1.0;
    } else {
      assert q as real - 1.0 < y <= q as real;
    }
  }
}
