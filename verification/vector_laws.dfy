/**
  Laws of the `Vector` operations: rounding at construction is a
  projection, addition and subtraction are exact group operations on the
  0.01 grid, scaling, the dot product and the length relate as in the
  Euclidean plane, and the two-point constructor is a difference of points.
 */
module VectorLaws {
  import opened Rounding
  import opened Vector2D
  import opened Arithmetic

  // ---------------------------------------------------------------------
  // Construction

  /** Constructing a vector from its own stored coordinates gives it back:
      `Vector(v.x_coord, v.y_coord) == v`. */
  lemma MakeOfStored(v: Vector)
    ensures Make(v.XCoord(), v.YCoord()) == v
  {
    Round2OnGrid(v.x);
    Round2OnGrid(v.y);
  }

  /** Construction is a projection: constructing again from a constructed
      vector's coordinates changes nothing. */
  lemma MakeIdempotent(xCoord: real, yCoord: real)
    ensures var v := Make(xCoord, yCoord); Make(v.XCoord(), v.YCoord()) == v
  {
    MakeOfStored(Make(xCoord, yCoord));
  }

  /** The constructor stores, for each coordinate, exactly the count of
      hundredths nearest to it, ties going to the even count. */
  lemma MakeCharacterization(xCoord: real, yCoord: real, v: Vector)
    ensures Make(xCoord, yCoord) == v <==> NearestEven(xCoord * 100.0, v.x) && NearestEven(yCoord * 100.0, v.y)
  {
    RoundHalfEvenCharacterization(xCoord * 100.0, v.x);
    RoundHalfEvenCharacterization(yCoord * 100.0, v.y);
  }

  /** Ties are broken towards an even last digit: 0.375 becomes 0.38,
      1.125 becomes 1.12 and -0.125 becomes -0.12. These values are exact
      binary fractions, so Python's floats store the same results. */
  lemma MakeRoundsHalfToEven()
    ensures Make(0.375, 1.125) == Vector(38, 112)
    ensures Make(-0.125, 0.0) == Vector(-12, 0)
  {
    MakeCharacterization(0.375, 1.125, Vector(38, 112));
    MakeCharacterization(-0.125, 0.0, Vector(-12, 0));
  }

  // ---------------------------------------------------------------------
  // Addition and subtraction

  lemma AddCommutative(a: Vector, b: Vector)
    ensures Add(a, b) == Add(b, a)
  {
  }

  lemma AddAssociative(a: Vector, b: Vector, c: Vector)
    ensures Add(Add(a, b), c) == Add(a, Add(b, c))
  {
  }

  /** Adding `Vector(0, 0)` gives back an equal vector. */
  lemma AddZero(v: Vector)
    ensures Add(v, Zero) == v
    ensures Add(Zero, v) == v
  {
  }

  /** `v - v == Vector(0, 0)`. */
  lemma SubSelf(v: Vector)
    ensures Sub(v, v) == Zero
  {
  }

  /** `(a - b) + b == a`: no rounding drift, since every stored coordinate
      is already on the grid. */
  lemma SubThenAdd(a: Vector, b: Vector)
    ensures Add(Sub(a, b), b) == a
    ensures Sub(Add(a, b), b) == a
  {
  }

  /** `v + (Vector(0, 0) - v) == Vector(0, 0)`. */
  lemma AddInverse(v: Vector)
    ensures Add(v, Sub(Zero, v)) == Zero
  {
  }

  // ---------------------------------------------------------------------
  // Two points

  /** The vector from a point to itself is the zero vector. */
  lemma FromSamePoint(p: (real, real))
    ensures FromTwoPoints(p, p) == Zero
  {
    Round2OnGrid(0);
  }

  /** For points whose coordinates are on the grid, the two-point vector is
      the difference of the position vectors: `end - start`. */
  lemma FromTwoGridPoints(sx: int, sy: int, ex: int, ey: int)
    ensures FromTwoPoints((sx as real / 100.0, sy as real / 100.0), (ex as real / 100.0, ey as real / 100.0))
         == Sub(Vector(ex, ey), Vector(sx, sy))
  {
    Round2OnGrid(ex - sx);
    Round2OnGrid(ey - sy);
  }

  /** Swapping the two points negates the vector, whatever the points: round
      half to even treats `x` and `-x` alike. */
  lemma FromTwoPointsReversed(start: (real, real), end: (real, real))
    ensures FromTwoPoints(end, start) == Sub(Zero, FromTwoPoints(start, end))
  {
    Round2Negate(end.0 - start.0);
    Round2Negate(end.1 - start.1);
  }

  /** The two-point constructor stores, for each coordinate, exactly the
      hundredths count nearest to the difference of the points, ties going
      to the even count. */
  lemma FromTwoPointsCharacterization(start: (real, real), end: (real, real), v: Vector)
    ensures FromTwoPoints(start, end) == v
        <==> NearestEven((end.0 - start.0) * 100.0, v.x) && NearestEven((end.1 - start.1) * 100.0, v.y)
  {
    MakeCharacterization(end.0 - start.0, end.1 - start.1, v);
  }

  /** From (1, 1) to (4, 5) is `Vector(3, 4)`, whose length is 5. */
  lemma FromTwoPointsExample()
    ensures FromTwoPoints((1.0, 1.0), (4.0, 5.0)) == Vector(300, 400)
    ensures IsLength(Vector(300, 400), 5.0)
  {
    FromTwoGridPoints(100, 100, 400, 500);
  }

  // ---------------------------------------------------------------------
  // Multiplication, dot product and length

  /** `v * 1` is a vector equal to `v`. */
  lemma MulByOne(v: Vector)
    ensures Mul(v, Scalar(1.0)) == Ok(Scaled(v))
  {
    MakeOfStored(v);
  }

  /** `v * k` stores, for each coordinate, exactly the hundredths count
      nearest to the scaled coordinate, ties going to the even count. */
  lemma MulScalarCharacterization(v: Vector, k: real, w: Vector)
    ensures Mul(v, Scalar(k)) == Ok(Scaled(w))
        <==> NearestEven(Scale(v.XCoord(), k) * 100.0, w.x) && NearestEven(Scale(v.YCoord(), k) * 100.0, w.y)
  {
    RoundHalfEvenCharacterization(Scale(v.XCoord(), k) * 100.0, w.x);
    RoundHalfEvenCharacterization(Scale(v.YCoord(), k) * 100.0, w.y);
  }

  /** Scaling by an integer is exact. */
  lemma MulByInteger(v: Vector, n: int)
    ensures Mul(v, Scalar(n as real)) == Ok(Scaled(Vector(v.x * n, v.y * n)))
  {
    var r := Mul(v, Scalar(n as real)).value.v;
    ScaleOnGrid(v.x, n);
    ScaleOnGrid(v.y, n);
    Round2OnGrid(v.x * n);
    Round2OnGrid(v.y * n);
    assert r.x == v.x * n;
    assert r.y == v.y * n;
  }

  /** Scaling a vector by a natural number `n` scales its length by `n`. */
  lemma ScaledLength(v: Vector, length: real, n: nat)
    requires IsLength(v, length)
    ensures IsLength(Vector(v.x * n, v.y * n), n as real * length)
  {
    var w := Vector(v.x * n, v.y * n);
    var sv := v.x * v.x + v.y * v.y;
    ScaledSumOfSquares(v.x, v.y, n);
    IntProductAsReal(n * n, sv);
    assert SquaredLength(w) * 10000.0 == (n * n) as real * (SquaredLength(v) * 10000.0);
    SquareOfProduct(n as real, length);
    SquareOfIntAsReal(n);
  }

  /** `v * 2` has twice the length of `v`. */
  lemma MulByTwoDoublesLength(v: Vector, length: real)
    requires IsLength(v, length)
    ensures Mul(v, Scalar(2.0)).Ok?
    ensures IsLength(Mul(v, Scalar(2.0)).value.v, 2.0 * length)
  {
    MulByInteger(v, 2);
    ScaledLength(v, length, 2);
  }

  /** `a * b` with a vector operand is the dot product, and so is `b * a`. */
  lemma MulVectorsCommutes(a: Vector, b: Vector)
    ensures Mul(a, VectorOperand(b)) == Mul(b, VectorOperand(a))
  {
    DotSymmetric(a, b);
  }

  lemma DotSymmetric(a: Vector, b: Vector)
    ensures Dot(a, b) == Dot(b, a)
  {
    assert a.x * b.x + a.y * b.y == b.x * a.x + b.y * a.y;
  }

  /** `v.dot(v)` is the squared length, the quantity under the square root
      in `get_length`. */
  lemma DotSelf(v: Vector)
    ensures Dot(v, v) == SquaredLength(v)
  {
  }

  /** The length of a vector is determined by the vector. */
  lemma LengthUnique(v: Vector, l1: real, l2: real)
    requires IsLength(v, l1) && IsLength(v, l2)
    ensures l1 == l2
  {
    SquareLeMonotone(l1, l2);
    SquareLeMonotone(l2, l1);
  }

  /** Normalising `Vector(3, 4)` gives `Vector(0.6, 0.8)`. */
  lemma NormalizedExample()
    ensures Normalized(Vector(300, 400), 5.0) == Vector(60, 80)
  {
    Round2OnGrid(60);
    Round2OnGrid(80);
  }

  /** Normalisation depends only on the direction: `(v * n).get_normalized()`
      equals `v.get_normalized()` for every positive integer `n`. */
  lemma NormalizedScaleInvariant(v: Vector, length: real, n: nat)
    requires n >= 1 && IsLength(v, length)
    ensures IsLength(Vector(v.x * n, v.y * n), n as real * length)
    ensures Normalized(Vector(v.x * n, v.y * n), n as real * length) == Normalized(v, length)
  {
    ScaledLength(v, length, n);
    if length == 0.0 {
      LengthZeroIff(v, length);
    } else {
      NormalizedOfScaledNonZero(v, length, n);
    }
  }

  /** The non-zero case of `NormalizedScaleInvariant`: both sides divide
      the same grid values by the same length. */
  lemma NormalizedOfScaledNonZero(v: Vector, length: real, n: nat)
    requires n >= 1 && length != 0.0
    requires IsLength(v, length) && IsLength(Vector(v.x * n, v.y * n), n as real * length)
    ensures Normalized(Vector(v.x * n, v.y * n), n as real * length) == Normalized(v, length)
  {
    var w, scaled := Vector(v.x * n, v.y * n), n as real * length;
    ScaledCoordinatesQuotient(v, length, n);
    NormalizedDivides(w, scaled);
    NormalizedDivides(v, length);
  }

  /** The coordinates of `v` scaled by `n`, over the length scaled by `n`,
      are the coordinates of `v` over its length. */
  lemma ScaledCoordinatesQuotient(v: Vector, length: real, n: nat)
    requires n >= 1 && length != 0.0
    ensures Vector(v.x * n, v.y * n).XCoord() / (n as real * length) == v.XCoord() / length
    ensures Vector(v.x * n, v.y * n).YCoord() / (n as real * length) == v.YCoord() / length
  {
    ScaledQuotient(v.x, n, length);
    ScaledQuotient(v.y, n, length);
  }

  /** Away from zero, normalisation divides each coordinate by the length. */
  lemma NormalizedDivides(v: Vector, length: real)
    requires IsLength(v, length) && length != 0.0
    ensures Normalized(v, length) == Make(v.XCoord() / length, v.YCoord() / length)
  {
  }

  // ---------------------------------------------------------------------
  // Angles

  /** Clamping twice is clamping once. */
  lemma ClampIdempotent(c: real)
    ensures Clamp(Clamp(c)) == Clamp(c)
  {
  }

  /** Clamping preserves order. */
  lemma ClampMonotone(c1: real, c2: real)
    requires c1 <= c2
    ensures Clamp(c1) <= Clamp(c2)
  {
  }

  /** The angle between `a` and `b` is the angle between `b` and `a`. */
  lemma AngleCosineSymmetric(a: Vector, b: Vector, lengthA: real, lengthB: real)
    requires IsLength(a, lengthA) && IsLength(b, lengthB)
    ensures AngleCosine(a, b, lengthA, lengthB) == AngleCosine(b, a, lengthB, lengthA)
  {
    DotSymmetric(a, b);
    assert lengthA * lengthB == lengthB * lengthA;
  }

  /** A non-zero vector makes an angle of 0 degrees with itself. */
  lemma AngleWithItself(v: Vector, length: real)
    requires IsLength(v, length) && !v.IsZero()
    ensures AngleCosine(v, v, length, length) == Ok(1.0)
  {
    LengthZeroIff(v, length);
    DotSelf(v);
    SquarePositive(length);
    DivideBySelf(length * length);
  }

  /** A non-zero vector makes an angle of 180 degrees with its opposite
      `Vector(0, 0) - v`. */
  lemma AngleWithOpposite(v: Vector, length: real)
    requires IsLength(v, length) && !v.IsZero()
    ensures IsLength(Sub(Zero, v), length)
    ensures AngleCosine(v, Sub(Zero, v), length, length) == Ok(-1.0)
  {
    var w := Sub(Zero, v);
    assert w.x * w.x + w.y * w.y == v.x * v.x + v.y * v.y;
    assert Dot(v, w) == -SquaredLength(v);
    LengthZeroIff(v, length);
    SquarePositive(length);
    DivideBySelf(length * length);
    assert -(length * length) / (length * length) == -1.0;
  }

  /** `Vector(3, 0)` and `Vector(0, 4)` are perpendicular: cosine 0, an
      angle of 90 degrees. */
  lemma PerpendicularExample()
    ensures AngleCosine(Make(3.0, 0.0), Make(0.0, 4.0), 3.0, 4.0) == Ok(0.0)
  {
    MakeOfStored(Vector(300, 0));
    MakeOfStored(Vector(0, 400));
  }

  /** `Vector(0, 1)` lies on the y axis (cosine 1, angle 0) and
      `Vector(1, 0)` is perpendicular to it (cosine 0, angle 90). */
  lemma AngleFromYAxisExamples()
    ensures AngleFromYAxisCosine(Vector(0, 100), 1.0) == Ok(1.0)
    ensures AngleFromYAxisCosine(Vector(100, 0), 1.0) == Ok(0.0)
  {
  }

  /** `get_angle` depends only on the direction: scaling `v` by a positive
      integer leaves the cosine with the y axis, or the error, unchanged. */
  lemma AngleFromYAxisScaleInvariant(v: Vector, length: real, n: nat)
    requires n >= 1 && IsLength(v, length)
    ensures IsLength(Vector(v.x * n, v.y * n), n as real * length)
    ensures AngleFromYAxisCosine(Vector(v.x * n, v.y * n), n as real * length)
         == AngleFromYAxisCosine(v, length)
  {
    ScaledLength(v, length, n);
    if !v.IsZero() {
      AngleFromYAxisOfScaledNonZero(v, length, n);
    }
  }

  /** The non-zero case of `AngleFromYAxisScaleInvariant`. */
  lemma AngleFromYAxisOfScaledNonZero(v: Vector, length: real, n: nat)
    requires n >= 1 && !v.IsZero()
    requires IsLength(v, length) && IsLength(Vector(v.x * n, v.y * n), n as real * length)
    ensures AngleFromYAxisCosine(Vector(v.x * n, v.y * n), n as real * length)
         == AngleFromYAxisCosine(v, length)
  {
    var w, scaled := Vector(v.x * n, v.y * n), n as real * length;
    LengthZeroIff(v, length);
    ScaledQuotient(v.y, n, length);
    AngleFromYAxisQuotient(w, scaled);
    AngleFromYAxisQuotient(v, length);
  }

  /** Away from zero, the cosine with the y axis is `y_coord / length`. */
  lemma AngleFromYAxisQuotient(v: Vector, length: real)
    requires IsLength(v, length) && !v.IsZero()
    ensures AngleFromYAxisCosine(v, length) == Ok(v.YCoord() / length)
  {
    LengthZeroIff(v, length);
    CosineFromQuotient(AngleFromYAxisCosine(v, length).value, v.YCoord(), length);
  }

  /** A value that times a non-zero `p` gives `c` is the quotient `c / p`. */
  lemma CosineFromQuotient(r: real, c: real, p: real)
    requires p != 0.0 && r * p == c
    ensures r == c / p
  {
  }
}
