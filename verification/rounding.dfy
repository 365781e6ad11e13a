/**
  Rounding of exact reals to the 0.01 grid.

  Python's `round(x, 2)` rounds to the nearest multiple of 0.01 and breaks
  ties towards the even last digit ("banker's rounding"). The model applies
  that rule to exact reals: `Round2(r)` is the number of hundredths nearest
  to `r`, ties going to the even count.
 */
module Rounding {

  /** `k` is the integer nearest to `t`; on a tie (`t` exactly halfway
      between two integers) it is the even one of the two. */
  ghost predicate NearestEven(t: real, k: int) {
    var d := k as real - t;
    (-0.5 < d < 0.5) || ((d == 0.5 || d == -0.5) && k % 2 == 0)
  }

  /** Round half to even: the integer nearest to `t`, ties to even. */
  function RoundHalfEven(t: real): (k: int)
    ensures -0.5 <= k as real - t <= 0.5
    ensures (k as real - t == 0.5 || k as real - t == -0.5) ==> k % 2 == 0
  {
    var f := t.Floor;
    var frac := t - f as real;
    if frac < 0.5 then f
    else if frac > 0.5 then f + 1
    else if f % 2 == 0 then f
    else f + 1
  }

  /** At most one integer is the nearest-even integer of a real. */
  lemma NearestEvenUnique(t: real, k1: int, k2: int)
    requires NearestEven(t, k1) && NearestEven(t, k2)
    ensures k1 == k2
  {
    var d1, d2 := k1 as real - t, k2 as real - t;
    assert -1.0 <= d1 - d2 <= 1.0;
  }

  /** `RoundHalfEven` returns exactly the nearest-even integer, and nothing
      else is: both directions of the characterisation. */
  lemma RoundHalfEvenCharacterization(t: real, k: int)
    ensures RoundHalfEven(t) == k <==> NearestEven(t, k)
  {
    var r := RoundHalfEven(t);
    assert NearestEven(t, r);
    if NearestEven(t, k) {
      NearestEvenUnique(t, r, k);
    }
  }

  /** Integers are fixed points of rounding. */
  lemma RoundHalfEvenOfInteger(n: int)
    ensures RoundHalfEven(n as real) == n
  {
    RoundHalfEvenCharacterization(n as real, n);
  }

  /** Round half to even is symmetric about zero (round half up would not be). */
  lemma RoundHalfEvenNegate(t: real)
    ensures RoundHalfEven(-t) == -RoundHalfEven(t)
  {
    var k := RoundHalfEven(t);
    RoundHalfEvenCharacterization(t, k);
    assert (-k) % 2 == 0 <==> k % 2 == 0;
    assert NearestEven(-t, -k);
    RoundHalfEvenCharacterization(-t, -k);
  }

  /** `round(r, 2)` counted in hundredths: the result lies within half a
      hundredth of `r`. */
  function Round2(r: real): (h: int)
    ensures -0.005 <= h as real / 100.0 - r <= 0.005
  {
    RoundHalfEven(r * 100.0)
  }

  /** A value already on the 0.01 grid is left unchanged by rounding. */
  lemma Round2OnGrid(n: int)
    ensures Round2(n as real / 100.0) == n
  {
    assert (n as real / 100.0) * 100.0 == n as real;
    RoundHalfEvenOfInteger(n);
  }

  /** Rounding to two decimals is a projection: rounding a rounded value
      changes nothing. */
  lemma Round2Idempotent(r: real)
    ensures Round2(Round2(r) as real / 100.0) == Round2(r)
  {
    Round2OnGrid(Round2(r));
  }

  /** Rounding to two decimals commutes with negation. */
  lemma Round2Negate(r: real)
    ensures Round2(-r) == -Round2(r)
  {
    assert -r * 100.0 == -(r * 100.0);
    RoundHalfEvenNegate(r * 100.0);
  }
}
