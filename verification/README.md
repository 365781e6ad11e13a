# A verified model of the `Vector` value type

This project models the immutable two-dimensional `Vector` class of
`app/main.py` in Dafny and proves properties of the model. The model covers:

- construction with two-decimal rounding;
- addition and subtraction;
- the type-dispatched `*` operator and the dot product;
- the two-point constructor;
- the squared length under `get_length`'s square root;
- `get_normalized`, including its zero-length guard;
- the cosine computation, with its clamp, that `angle_between` and
  `get_angle` feed to `acos`.

Modules:

- `Rounding` (`rounding.dfy`) holds Python's `round(x, 2)`. It is modelled
  on exact reals as round-half-to-even of `100 * x`, counted in hundredths.
- `Arithmetic` (`arithmetic.dfy`) holds facts about squares and products.
  It also proves the integer Cauchy-Schwarz inequality from Lagrange's
  identity.
- `Vector2D` (`vector.dfy`) holds the datatype and the operations. A
  `Vector` stores each coordinate as an integer number of hundredths, so
  every value lies on the 0.01 grid. Python floats are modelled as exact
  reals.
- `VectorLaws` (`vector_laws.dfy`) holds the laws that relate the
  operations:
  - rounding is a projection;
  - `+` and `-` are exact;
  - two-point construction is a difference of points;
  - scaling relates to length;
  - the dot product is symmetric and gives the squared length.

Dafny has no square root. Wherever the source calls `get_length()`, the
model takes the length as a parameter constrained by `IsLength(v, length)`:
`length >= 0` and `length ** 2` equals the squared length. That is exactly
what `math.sqrt` returns on exact reals.

Two results stand out:

- In exact arithmetic, the clamp `max(-1, min(1, cos_a))` never changes
  its argument. Cauchy-Schwarz is proved (`Vector2D.CauchySchwarz`), so the
  clamp only guards against floating-point error.
- Round-half-to-even is symmetric about zero. So
  `create_vector_by_two_points(e, s)` is always the negation of
  `create_vector_by_two_points(s, e)`.

Two behaviours of the code fix details that are easy to get wrong:

- Python's `round` rounds half to even, so a coordinate exactly halfway
  between two hundredths is stored with the even last digit.
- In `angle_between`, a float division by a zero product of lengths raises
  `ZeroDivisionError`. The model returns `Err(ZeroDivisionError)` exactly
  when either vector is zero.

## Model

| member | source | states |
|---|---|---|
| Rounding.Round2 | app/main.py:7-8 | `round(r, 2)` in hundredths lies within 0.005 of `r` |
| Rounding.RoundHalfEven | app/main.py:7-8 | the rounded integer lies within 1/2 of its argument, and on a tie it is even |
| Rounding.RoundHalfEvenCharacterization | app/main.py:7-8 | rounding returns `k` if and only if `k` is the nearest integer, ties going to the even one (both directions) |
| Rounding.RoundHalfEvenNegate | app/main.py:7-8 | rounding half to even commutes with negation |
| Rounding.Round2OnGrid | app/main.py:7-8 | a value already on the 0.01 grid is stored unchanged |
| Rounding.Round2Idempotent | app/main.py:7-8 | rounding an already rounded value changes nothing |
| Rounding.Round2Negate | app/main.py:7-8 | `round(-r, 2) == -round(r, 2)` |
| Vector2D.Make | app/main.py:6-8 | each stored coordinate is within 0.005 of the constructor argument |
| VectorLaws.MakeCharacterization | app/main.py:6-8 | the constructor stores exactly the nearest hundredths count for each coordinate, ties to even (both directions) |
| VectorLaws.MakeOfStored | app/main.py:6-8 | `Vector(v.x_coord, v.y_coord) == v` |
| VectorLaws.MakeIdempotent | app/main.py:6-8 | reconstructing a constructed vector from its coordinates gives the same vector |
| VectorLaws.MakeRoundsHalfToEven | app/main.py:6-8 | ties go to the even hundredth: `Vector(0.375, 1.125)` stores (0.38, 1.12) and `Vector(-0.125, 0)` stores (-0.12, 0) |
| Vector2D.Add | app/main.py:10-14 | `a + b` stores exactly the componentwise sums; re-rounding introduces no drift |
| VectorLaws.AddCommutative | app/main.py:10-14 | `a + b == b + a` |
| VectorLaws.AddAssociative | app/main.py:10-14 | `(a + b) + c == a + (b + c)` |
| VectorLaws.AddZero | app/main.py:10-14 | adding `Vector(0, 0)` on either side gives back the vector |
| Vector2D.Sub | app/main.py:16-20 | `a - b` stores exactly the componentwise differences |
| VectorLaws.SubSelf | app/main.py:16-20 | `v - v == Vector(0, 0)` |
| VectorLaws.SubThenAdd | app/main.py:10-20 | `(a - b) + b == a` and `(a + b) - b == a` |
| VectorLaws.AddInverse | app/main.py:10-20 | `v + (Vector(0, 0) - v) == Vector(0, 0)` |
| Vector2D.Mul | app/main.py:22-28 | a scalar `k` gives `Vector(x_coord * k, y_coord * k)`: each coordinate is the scaled coordinate rounded to two decimals, so within 0.005 of it; a vector gives exactly `dot`; any other operand, and only that, gives `TypeError` |
| VectorLaws.MulScalarCharacterization | app/main.py:22-24 | `v * k` stores exactly the nearest hundredths count of each scaled coordinate, ties to even (both directions) |
| VectorLaws.MulByOne | app/main.py:22-24 | `v * 1` is a vector equal to `v` |
| VectorLaws.MulByInteger | app/main.py:22-24 | scaling by an integer is exact: `v * n` stores `n` times the coordinates |
| VectorLaws.ScaledLength | app/main.py:22-24 | scaling the coordinates by a natural number `n` scales the length by `n` |
| VectorLaws.MulByTwoDoublesLength | app/main.py:22-24 | `v * 2` has twice the length of `v` |
| VectorLaws.MulVectorsCommutes | app/main.py:25-26 | `a * b == b * a` for two vectors |
| Vector2D.Dot | app/main.py:30-31 | the dot product is exact in units of 1/10000, with no rounding applied |
| VectorLaws.DotSymmetric | app/main.py:30-31 | `a.dot(b) == b.dot(a)` |
| VectorLaws.DotSelf | app/main.py:30-31 | `v.dot(v)` equals `x_coord ** 2 + y_coord ** 2` |
| Vector2D.FromTwoPoints | app/main.py:33-38 | the result is within 0.005 per coordinate of `end - start` |
| VectorLaws.FromSamePoint | app/main.py:33-38 | the vector from a point to itself is `Vector(0, 0)` |
| VectorLaws.FromTwoGridPoints | app/main.py:33-38 | for points on the grid, the result is `Vector(*end) - Vector(*start)` |
| VectorLaws.FromTwoPointsReversed | app/main.py:33-38 | swapping start and end negates the vector, for all points |
| VectorLaws.FromTwoPointsCharacterization | app/main.py:33-38 | the result stores exactly the nearest hundredths count of each coordinate difference, ties to even (both directions) |
| VectorLaws.FromTwoPointsExample | app/main.py:33-41 | from (1, 1) to (4, 5) is `Vector(3, 4)`, whose length is 5 |
| Vector2D.SquaredLength | app/main.py:40-41 | the squared length is non-negative, exact in units of 1/10000, and zero exactly for the zero vector |
| VectorLaws.LengthUnique | app/main.py:40-41 | a vector has exactly one length |
| Vector2D.LengthZeroIff | app/main.py:40-46 | the length is zero if and only if both stored coordinates are zero |
| Vector2D.Normalized | app/main.py:43-50 | zero length gives `Vector(0, 0)`; otherwise each coordinate lies in [-1, 1] and never takes the opposite sign of the original (a small coordinate may round to 0) |
| VectorLaws.NormalizedExample | app/main.py:43-50 | normalising `Vector(3, 4)` gives `Vector(0.6, 0.8)` |
| VectorLaws.NormalizedScaleInvariant | app/main.py:43-50 | `(v * n).get_normalized() == v.get_normalized()` for every positive integer `n` |
| Vector2D.Clamp | app/main.py:57 | the clamp yields a value in [-1, 1], leaves values already in range unchanged, and maps anything above 1 to 1 and anything below -1 to -1 |
| VectorLaws.ClampIdempotent | app/main.py:57 | clamping twice is clamping once |
| VectorLaws.ClampMonotone | app/main.py:57 | the clamp preserves order |
| Vector2D.CauchySchwarz | app/main.py:53-57 | the dot product lies between minus and plus the product of the lengths |
| Vector2D.AngleCosine | app/main.py:52-57 | `ZeroDivisionError` exactly when either vector is zero; otherwise a cosine in [-1, 1] equal to `dot / (len_self * len_other)`, so the clamp never alters it |
| VectorLaws.AngleCosineSymmetric | app/main.py:52-57 | the angle between `a` and `b` is the angle between `b` and `a` |
| VectorLaws.AngleWithItself | app/main.py:52-57 | a non-zero vector has cosine 1 with itself (angle 0) |
| VectorLaws.AngleWithOpposite | app/main.py:52-57 | a non-zero vector has cosine -1 with `Vector(0, 0) - v` (angle 180) |
| VectorLaws.PerpendicularExample | app/main.py:52-57 | `Vector(3, 0)` and `Vector(0, 4)` have cosine 0, an angle of 90 degrees |
| Vector2D.AngleFromYAxisCosine | app/main.py:52-62 | `ZeroDivisionError` exactly for the zero vector; otherwise a cosine in [-1, 1] equal to `y_coord / length` |
| VectorLaws.AngleFromYAxisScaleInvariant | app/main.py:52-62 | scaling `v` by a positive integer leaves `get_angle`'s cosine, or its `ZeroDivisionError`, unchanged |
| VectorLaws.AngleFromYAxisExamples | app/main.py:60-62 | `Vector(0, 1)` has cosine 1 (angle 0) and `Vector(1, 0)` has cosine 0 (angle 90) |

## Left out

- `math.sqrt` in `get_length` is not computed. The length is a parameter
  constrained by `IsLength`, because Dafny has no square root.
- `math.acos`, `math.degrees` and the final integer `round` in
  `angle_between` and `get_angle` are left out. They are transcendental
  float functions. The model stops at the clamped cosine.
- `rotate` is left out. It needs `math.radians`, `math.cos` and
  `math.sin`, which cannot be stated without axiomatising trigonometry.
- IEEE 754 binary floats are not modelled. Coordinates and scalars are
  exact reals, so representation error is absent. For example, Python's
  `round(2.675, 2)` gives 2.67 and `round(2.345, 2)` gives 2.35, because
  those literals are not exact in binary. The model gives 2.68 and 2.34.
  Accumulated error in `+`, `-`, `*` and `dot` is absent too.
- Infinities, NaN and float overflow are not modelled, as operands or as
  results.
- Vector2D.Normalized: states coordinate bounds and that no coordinate
  takes the opposite sign (a small coordinate may round to 0), not that the
  result has length close to 1. That would need the rounding error of two
  divisions carried through a square root.
- Vector2D.AngleCosine: states the cosine, not the integer angle in degrees
  that `angle_between` returns, because `acos` is left out.
- Vector2D.AngleFromYAxisCosine: states the cosine, not the integer angle
  `get_angle` returns, for the same reason.
- Points passed to `create_vector_by_two_points` are pairs of numbers. The
  code reads only entries `[0]` and `[1]`, so a longer tuple or list is
  accepted with its extra entries ignored; the model covers it through its
  first two entries. A shorter one raises `IndexError` and a non-numeric
  entry raises `TypeError`; neither is modelled.
- The class defines no `__eq__`, so Python's `==` on two vectors compares
  identity. Every law here uses the model's equality, which holds when the
  stored coordinates are equal.
- `x_coord` and `y_coord` are writable attributes. The grid invariant and
  the exactness of `+` and `-` assume no assignment after construction;
  assigning an unrounded value is not modelled.
- `+`, `-` and `dot` with an operand that is not a `Vector` raise
  `AttributeError` (app/main.py:12, 18 and 31). The model's types admit
  only vectors there, so this error path is not modelled.
- The type of a stored coordinate is not modelled. `round` keeps an `int`
  argument an `int` and a `float` a `float`, but this never changes a value.
- A Python `bool` operand of `*` counts as a scalar (0 or 1), because
  `bool` is a subclass of `int`. `Operand.Scalar` covers it. `Unsupported`
  stands for every other non-vector operand.
