/**
  The immutable two-dimensional `Vector` value type of app/main.py.

  A vector stores its two coordinates rounded to two decimals at
  construction. The model keeps each stored coordinate as an integer count
  of hundredths, so every value of the datatype lies on the 0.01 grid and
  addition, subtraction and the dot product are exact. Python floats are
  modelled as exact reals.

  `math.sqrt` is not available: where the source takes a square root, the
  model receives the length as a parameter together with the requirement
  that it is the non-negative square root of the squared length
  (`IsLength`).
 */
module Vector2D {
  import opened Rounding
  import opened Arithmetic

  /** A vector whose stored coordinates are `x` and `y` hundredths. */
  datatype Vector = Vector(x: int, y: int) {

    /** The stored `x_coord`, as a number. */
    function XCoord(): real {
      x as real / 100.0
    }

    /** The stored `y_coord`, as a number. */
    function YCoord(): real {
      y as real / 100.0
    }

    predicate IsZero() {
      x == 0 && y == 0
    }
  }

  /** `Vector(0, 0)`. */
  const Zero: Vector := Vector(0, 0)

  /** The errors the modelled operations raise. */
  datatype Error = TypeError | ZeroDivisionError

  datatype Result<T> = Ok(value: T) | Err(error: Error)

  /** The right operand of `*`: a number (Python `int`, `float` or `bool`),
      another vector, or anything else. */
  datatype Operand = Scalar(k: real) | VectorOperand(w: Vector) | Unsupported

  /** What `*` returns: a vector for a scalar operand, a number for a
      vector operand. */
  datatype Product = Scaled(v: Vector) | Number(n: real)

  /** `Vector(x_coord, y_coord)`: each coordinate is rounded to two decimals
      (half to even), so the stored value is within 0.005 of the argument. */
  function Make(xCoord: real, yCoord: real): (v: Vector)
    ensures -0.005 <= v.XCoord() - xCoord <= 0.005
    ensures -0.005 <= v.YCoord() - yCoord <= 0.005
  {
    Vector(Round2(xCoord), Round2(yCoord))
  }

  /** `a + b`: the stored coordinates are summed and rounded again; since
      both lie on the grid the rounding is exact. */
  function Add(a: Vector, b: Vector): (r: Vector)
    ensures r.x == a.x + b.x && r.y == a.y + b.y
  {
    Round2OnGrid(a.x + b.x);
    Round2OnGrid(a.y + b.y);
    Make(a.XCoord() + b.XCoord(), a.YCoord() + b.YCoord())
  }

  /** `a - b`: componentwise difference, exact for the same reason. */
  function Sub(a: Vector, b: Vector): (r: Vector)
    ensures r.x == a.x - b.x && r.y == a.y - b.y
  {
    Round2OnGrid(a.x - b.x);
    Round2OnGrid(a.y - b.y);
    Make(a.XCoord() - b.XCoord(), a.YCoord() - b.YCoord())
  }

  /** `a.dot(b)`: no rounding is applied, and the result is exact in units
      of 1/10000. */
  function Dot(a: Vector, b: Vector): (d: real)
    ensures d * 10000.0 == (a.x * b.x + a.y * b.y) as real
  {
    HundredthsTimesHundredths(a.x, b.x);
    HundredthsTimesHundredths(a.y, b.y);
    a.XCoord() * b.XCoord() + a.YCoord() * b.YCoord()
  }

  /** `x_coord ** 2 + y_coord ** 2`, the quantity under the square root in
      `get_length`: never negative, and zero exactly for the zero vector. */
  function SquaredLength(v: Vector): (s: real)
    ensures s * 10000.0 == (v.x * v.x + v.y * v.y) as real
    ensures s >= 0.0
    ensures s == 0.0 <==> v.IsZero()
  {
    HundredthsTimesHundredths(v.x, v.x);
    HundredthsTimesHundredths(v.y, v.y);
    SumOfSquaresZero(v.x, v.y);
    Square(v.XCoord()) + Square(v.YCoord())
  }

  /** `length` is what `get_length` returns for `v`: the non-negative square
      root of the squared length. */
  ghost predicate IsLength(v: Vector, length: real) {
    length >= 0.0 && Square(length) == SquaredLength(v)
  }

  /** The length is zero exactly when both stored coordinates are zero,
      which is when `get_normalized` takes its guarded branch. */
  lemma LengthZeroIff(v: Vector, length: real)
    requires IsLength(v, length)
    ensures length == 0.0 <==> v.IsZero()
  {
    if length != 0.0 {
      SquarePositive(length);
    }
  }

  /** A coordinate `c` multiplied by the scalar `k`. */
  function Scale(c: real, k: real): real {
    c * k
  }

  /** A grid value scaled by an integer is again on the grid. */
  lemma ScaleOnGrid(p: int, n: int)
    ensures Scale(p as real / 100.0, n as real) == (p * n) as real / 100.0
  {
    HundredthsTimesInt(p, n);
  }

  /** `a * other`: a scalar scales both coordinates (rounding the result),
      a vector gives exactly the dot product, anything else raises
      `TypeError`. */
  function Mul(a: Vector, other: Operand): (r: Result<Product>)
    ensures other.Unsupported? <==> r == Err(TypeError)
    ensures other.VectorOperand? ==> r == Ok(Number(Dot(a, other.w)))
    ensures other.Scalar? ==>
      && r.Ok? && r.value.Scaled?
      && -0.005 <= r.value.v.XCoord() - Scale(a.XCoord(), other.k) <= 0.005
      && -0.005 <= r.value.v.YCoord() - Scale(a.YCoord(), other.k) <= 0.005
    ensures other.Scalar? ==>
      r == Ok(Scaled(Vector(Round2(Scale(a.XCoord(), other.k)), Round2(Scale(a.YCoord(), other.k)))))
  {
    match other
    case Scalar(k) => Ok(Scaled(Make(Scale(a.XCoord(), k), Scale(a.YCoord(), k))))
    case VectorOperand(w) =>
      var d := a.XCoord() * w.XCoord() + a.YCoord() * w.YCoord();
      assert d == Dot(a, w);
      Ok(Number(d))
    case Unsupported => Err(TypeError)
  }

  /** `Vector.create_vector_by_two_points(start, end)`: the vector from
      `start` to `end`, rounded like any constructed vector. */
  function FromTwoPoints(start: (real, real), end: (real, real)): (v: Vector)
    ensures -0.005 <= v.XCoord() - (end.0 - start.0) <= 0.005
    ensures -0.005 <= v.YCoord() - (end.1 - start.1) <= 0.005
  {
    Make(end.0 - start.0, end.1 - start.1)
  }

  /** A coordinate of a vector is at most its length in absolute value. */
  lemma CoordinateWithinLength(c: real, other: real, length: real)
    requires length >= 0.0 && Square(length) == Square(c) + Square(other)
    ensures -length <= c <= length
  {
    SquareNonNegative(other);
    AbsBoundFromSquares(c, length);
  }

  /** `v.get_normalized()`, given `v`'s length: the zero vector when the
      length is zero, otherwise each coordinate divided by the length and
      rounded. Every coordinate of the result lies in [-1, 1] and never
      takes the opposite sign of the corresponding coordinate of `v` (a
      small coordinate may round to 0). */
  function Normalized(v: Vector, length: real): (r: Vector)
    requires IsLength(v, length)
    ensures v.IsZero() ==> r == Zero
    ensures -100 <= r.x <= 100 && -100 <= r.y <= 100
    ensures (v.x > 0 ==> r.x >= 0) && (v.x < 0 ==> r.x <= 0) && (v.x == 0 ==> r.x == 0)
    ensures (v.y > 0 ==> r.y >= 0) && (v.y < 0 ==> r.y <= 0) && (v.y == 0 ==> r.y == 0)
  {
    if length == 0.0 then
      Round2OnGrid(0);
      Make(0.0, 0.0)
    else
      CoordinateWithinLength(v.XCoord(), v.YCoord(), length);
      CoordinateWithinLength(v.YCoord(), v.XCoord(), length);
      QuotientWithinOne(v.XCoord(), length);
      QuotientWithinOne(v.YCoord(), length);
      Round2OnGrid(0);
      Make(v.XCoord() / length, v.YCoord() / length)
  }

  /** `max(-1, min(1, c))`, the guard in `angle_between` that keeps the
      argument of `acos` inside its domain. */
  function Clamp(c: real): (r: real)
    ensures -1.0 <= r <= 1.0
    ensures -1.0 <= c <= 1.0 ==> r == c
    ensures c > 1.0 ==> r == 1.0
    ensures c < -1.0 ==> r == -1.0
  {
    var m := if c < 1.0 then c else 1.0;
    if m > -1.0 then m else -1.0
  }

  /** The cosine that `a.angle_between(b)` hands to `acos`, given the two
      lengths: the dot product over the product of the lengths, clamped.
      Dividing by a zero length raises `ZeroDivisionError`, which happens
      exactly when either vector is zero. In exact arithmetic the clamp
      never changes the value (Cauchy-Schwarz). */
  function AngleCosine(a: Vector, b: Vector, lengthA: real, lengthB: real): (r: Result<real>)
    requires IsLength(a, lengthA) && IsLength(b, lengthB)
    ensures r.Err? <==> a.IsZero() || b.IsZero()
    ensures r.Err? ==> r.error == ZeroDivisionError
    ensures r.Ok? ==> -1.0 <= r.value <= 1.0
    ensures r.Ok? ==> r.value * (lengthA * lengthB) == Dot(a, b)
  {
    var denominator := lengthA * lengthB;
    DenominatorZeroIff(a, b, lengthA, lengthB);
    if denominator == 0.0 then
      Err(ZeroDivisionError)
    else
      CosineWithinOne(a, b, lengthA, lengthB);
      Ok(Clamp(Dot(a, b) / denominator))
  }

  /** The product of two lengths is zero exactly when either vector is zero. */
  lemma DenominatorZeroIff(a: Vector, b: Vector, lengthA: real, lengthB: real)
    requires IsLength(a, lengthA) && IsLength(b, lengthB)
    ensures lengthA * lengthB == 0.0 <==> a.IsZero() || b.IsZero()
  {
    LengthZeroIff(a, lengthA);
    LengthZeroIff(b, lengthB);
    ProductZero(lengthA, lengthB);
  }

  /** For two non-zero vectors the dot product over the product of the
      lengths is a cosine: it lies in [-1, 1]. */
  lemma CosineWithinOne(a: Vector, b: Vector, lengthA: real, lengthB: real)
    requires IsLength(a, lengthA) && IsLength(b, lengthB) && lengthA * lengthB != 0.0
    ensures -1.0 <= Dot(a, b) / (lengthA * lengthB) <= 1.0
    ensures (Dot(a, b) / (lengthA * lengthB)) * (lengthA * lengthB) == Dot(a, b)
  {
    ProductZero(lengthA, lengthB);
    CauchySchwarz(a, b, lengthA, lengthB);
    QuotientWithinOne(Dot(a, b), lengthA * lengthB);
  }

  /** `v.get_angle()` up to the `acos`: the cosine of the angle between `v`
      and the y axis `Vector(0, 1)`, which is `y_coord / length`. */
  function AngleFromYAxisCosine(v: Vector, length: real): (r: Result<real>)
    requires IsLength(v, length)
    ensures r.Err? <==> v.IsZero()
    ensures r.Err? ==> r.error == ZeroDivisionError
    ensures r.Ok? ==> -1.0 <= r.value <= 1.0
    ensures r.Ok? ==> r.value * length == v.YCoord()
  {
    var yAxis := Make(0.0, 1.0);
    Round2OnGrid(0);
    Round2OnGrid(100);
    assert yAxis == Vector(0, 100);
    AngleCosine(v, yAxis, length, 1.0)
  }

  /** The dot product is bounded by the product of the lengths
      (Cauchy-Schwarz). */
  lemma CauchySchwarz(a: Vector, b: Vector, lengthA: real, lengthB: real)
    requires IsLength(a, lengthA) && IsLength(b, lengthB)
    ensures -(lengthA * lengthB) <= Dot(a, b) <= lengthA * lengthB
  {
    CauchySchwarzInt(a.x, a.y, b.x, b.y);
    ScaledProductBound(Dot(a, b), SquaredLength(a), SquaredLength(b),
                       a.x * b.x + a.y * b.y, a.x * a.x + a.y * a.y, b.x * b.x + b.y * b.y);
    SquareOfProduct(lengthA, lengthB);
    AbsBoundFromSquares(Dot(a, b), lengthA * lengthB);
  }
}
