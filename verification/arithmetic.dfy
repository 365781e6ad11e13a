/**
  Facts about squares and products of integers and reals used by the
  vector model. Real squares are written `Square(r)` rather than `r * r`.
 */
module Arithmetic {

  /** `r ** 2`. */
  function Square(r: real): real {
    r * r
  }

  lemma SquareNonNegative(r: real)
    ensures Square(r) >= 0.0
  {
    if r < 0.0 {
      assert Square(r) == (-r) * (-r);
    }
  }

  lemma SquarePositive(r: real)
    requires r != 0.0
    ensures Square(r) > 0.0
  {
    if r < 0.0 {
      SquareNegate(r);
      SquareLtMonotone(0.0, -r);
    } else {
      SquareLtMonotone(0.0, r);
    }
  }

  lemma SquareNegate(r: real)
    ensures Square(-r) == Square(r)
  {
  }

  lemma SquareOfProduct(a: real, b: real)
    ensures Square(a * b) == Square(a) * Square(b)
  {
  }

  /** Squaring is strictly increasing on the non-negative reals. */
  lemma SquareLtMonotone(u: real, w: real)
    requires 0.0 <= u < w
    ensures Square(u) < Square(w)
  {
    var low, mid, high := u * u, u * w, w * w;
    assert low <= mid;
    assert mid < high;
  }

  /** Of two non-negative reals, the one with the smaller square is the smaller. */
  lemma SquareLeMonotone(u: real, w: real)
    requires u >= 0.0 && w >= 0.0 && Square(u) <= Square(w)
    ensures u <= w
  {
    if w < u {
      SquareLtMonotone(w, u);
    }
  }

  /** A real whose square is at most `Square(p)`, with `p` non-negative,
      lies in [-p, p]. */
  lemma AbsBoundFromSquares(d: real, p: real)
    requires p >= 0.0 && Square(d) <= Square(p)
    ensures -p <= d <= p
  {
    if d >= 0.0 {
      SquareLeMonotone(d, p);
    } else {
      SquareNegate(d);
      SquareLeMonotone(-d, p);
    }
  }

  /** A quotient by a positive real of something no larger in absolute
      value lies in [-1, 1] and has the dividend's sign. */
  lemma QuotientWithinOne(c: real, p: real)
    requires p > 0.0 && -p <= c <= p
    ensures (c / p) * p == c
    ensures -1.0 <= c / p <= 1.0
    ensures c > 0.0 ==> c / p > 0.0
    ensures c < 0.0 ==> c / p < 0.0
    ensures c == 0.0 ==> c / p == 0.0
  {
    var q := c / p;
    assert q * p == c;
  }

  /** A grid value times a real number, counted in hundredths. */
  lemma HundredthsTimesInt(p: int, n: int)
    ensures (p as real / 100.0) * (n as real) == (p * n) as real / 100.0
  {
    assert (p * n) as real == (p as real) * (n as real);
  }

  /** The product of two grid values is an exact multiple of 1/10000. */
  lemma HundredthsTimesHundredths(p: int, q: int)
    ensures (p as real / 100.0) * (q as real / 100.0) == (p * q) as real / 10000.0
  {
    assert (p * q) as real == (p as real) * (q as real);
  }

  /** A sum of two integer squares is non-negative, and zero only at the origin. */
  lemma SumOfSquaresZero(p: int, q: int)
    ensures p * p + q * q >= 0
    ensures p * p + q * q == 0 <==> p == 0 && q == 0
  {
    if p != 0 {
      assert p * p > 0;
    }
    if q != 0 {
      assert q * q > 0;
    }
  }

  lemma IntSquareOfProduct(p: int, q: int)
    ensures (p * q) * (p * q) == (p * p) * (q * q)
  {
  }

  /** The algebra behind Lagrange's identity, with every product named. */
  lemma LagrangeAlgebra(u: int, v: int, s: int, t: int, a1: int, a2: int, b1: int, b2: int)
    requires u * v == s * t
    requires u * u == a1 * b1 && v * v == a2 * b2 && s * s == a1 * b2 && t * t == a2 * b1
    ensures (u + v) * (u + v) + (s - t) * (s - t) == (a1 + a2) * (b1 + b2)
  {
  }

  /** Cauchy-Schwarz in the integer plane, from Lagrange's identity
      `(p.q)^2 + (p x q)^2 == |p|^2 |q|^2`. */
  lemma CauchySchwarzInt(p1: int, p2: int, q1: int, q2: int)
    ensures (p1 * q1 + p2 * q2) * (p1 * q1 + p2 * q2) <= (p1 * p1 + p2 * p2) * (q1 * q1 + q2 * q2)
  {
    IntSquareOfProduct(p1, q1);
    IntSquareOfProduct(p2, q2);
    IntSquareOfProduct(p1, q2);
    IntSquareOfProduct(p2, q1);
    LagrangeAlgebra(p1 * q1, p2 * q2, p1 * q2, p2 * q1, p1 * p1, p2 * p2, q1 * q1, q2 * q2);
    var c := p1 * q2 - p2 * q1;
    assert c * c >= 0;
  }

  /** An inequality between integer products carries over to the reals
      that count them in units of 1/10000. */
  lemma ScaledProductBound(dr: real, sar: real, sbr: real, d: int, sa: int, sb: int)
    requires dr * 10000.0 == d as real && sar * 10000.0 == sa as real && sbr * 10000.0 == sb as real
    requires d * d <= sa * sb
    ensures Square(dr) <= sar * sbr
  {
    assert (d * d) as real == (d as real) * (d as real);
    assert (sa * sb) as real == (sa as real) * (sb as real);
    assert Square(dr) * 100000000.0 == (dr * 10000.0) * (dr * 10000.0);
    assert (sar * sbr) * 100000000.0 == (sar * 10000.0) * (sbr * 10000.0);
  }

  lemma IntProductAsReal(a: int, b: int)
    ensures (a * b) as real == (a as real) * (b as real)
  {
  }

  lemma SquareOfIntAsReal(n: int)
    ensures Square(n as real) == (n * n) as real
  {
  }

  /** Scaling both coordinates by `n` scales the sum of their squares by `n * n`. */
  lemma ScaledSumOfSquares(x: int, y: int, n: int)
    ensures (x * n) * (x * n) + (y * n) * (y * n) == (n * n) * (x * x + y * y)
  {
  }

  /** A common non-zero factor cancels from a quotient. */
  lemma CancelFactor(a: real, b: real, k: real)
    requires b != 0.0 && k != 0.0
    ensures (k * a) / (k * b) == a / b
  {
    var q := a / b;
    assert q * b == a;
    assert q * (k * b) == k * a;
  }

  /** A grid value scaled by a positive integer, over the length scaled by
      the same integer, is the original quotient. */
  lemma ScaledQuotient(p: int, n: int, length: real)
    requires n >= 1 && length != 0.0
    ensures n as real * length != 0.0
    ensures ((p * n) as real / 100.0) / (n as real * length) == (p as real / 100.0) / length
  {
    HundredthsTimesInt(p, n);
    CancelFactor(p as real / 100.0, length, n as real);
  }

  /** A product of reals is zero exactly when a factor is; a non-zero
      product of non-negative reals is positive. */
  lemma ProductZero(a: real, b: real)
    ensures a * b == 0.0 <==> a == 0.0 || b == 0.0
    ensures a >= 0.0 && b >= 0.0 && a * b != 0.0 ==> a * b > 0.0
  {
    if a != 0.0 && b != 0.0 {
      var q := (a * b) / a;
      assert q == b;
    }
  }

  /** A non-zero real divided by itself is one. */
  lemma DivideBySelf(a: real)
    requires a != 0.0
    ensures a / a == 1.0
  {
  }
}
