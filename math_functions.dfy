/** helper_functions/math_functions.py: the Witch of Agnesi curve, and the facts about
    real squares and products its proofs need. */
module MathFunctions {
  import opened Wrappers

  function Sq(a: real): real {
    a * a
  }

  function Cube(a: real): real {
    a * Sq(a)
  }

  /** The value itself under a second name: `a * Same(a)` is a product the solver keeps as a
      term of its own, where a strict inequality on `a * a` would be rewritten away. */
  function Same(a: real): real {
    a
  }

  lemma MulPositive(a: real, b: real)
    requires a > 0.0 && b > 0.0
    ensures a * b > 0.0
  {
  }

  lemma MulNonNegative(a: real, b: real)
    requires a >= 0.0 && b >= 0.0
    ensures a * b >= 0.0
  {
  }

  /** A square is never negative, and is zero only for zero. */
  lemma SquareSign(x: real)
    ensures Sq(x) >= 0.0
    ensures x != 0.0 ==> Sq(x) > 0.0
  {
    if x > 0.0 {
      MulPositive(x, Same(x));
    } else if x < 0.0 {
      MulPositive(-x, -Same(x));
      assert (-x) * (-Same(x)) == x * Same(x);
    }
    assert Sq(x) == x * Same(x);
  }

  /** The denominator x² + 4·radius² of `witch_of_agnesi` (helper_functions/math_functions.py:11). */
  function Denominator(x: real, radius: real): real {
    Sq(x) + 4.0 * Sq(radius)
  }

  /** The denominator vanishes exactly at x = 0 with radius = 0; otherwise it is positive. */
  lemma DenominatorSign(x: real, radius: real)
    ensures Denominator(x, radius) >= 4.0 * Sq(radius) >= 0.0
    ensures x != 0.0 ==> Denominator(x, radius) > 4.0 * Sq(radius)
    ensures Denominator(x, radius) == 0.0 <==> x == 0.0 && radius == 0.0
  {
    SquareSign(x);
    SquareSign(radius);
  }

  /** `witch_of_agnesi(x, radius)` = 8·radius³ / (x² + 4·radius²)
      (helper_functions/math_functions.py:10-11). Python raises ZeroDivisionError when the
      denominator is zero, which happens exactly at x = 0 with radius = 0. */
  function WitchOfAgnesi(x: real, radius: real): (r: Result<real>)
    ensures r.Ok? <==> x != 0.0 || radius != 0.0
    ensures r.Err? ==> r.error == ZeroDivisionError
  {
    DenominatorSign(x, radius);
    var d := Denominator(x, radius);
    if d == 0.0 then Err(ZeroDivisionError) else Ok(8.0 * Cube(radius) / d)
  }

  /** Where it is defined, the curve's value times x² + 4·radius² is 8·radius³. */
  lemma WitchOfAgnesiValue(x: real, radius: real)
    requires x != 0.0 || radius != 0.0
    ensures WitchOfAgnesi(x, radius).value * Denominator(x, radius) == 8.0 * Cube(radius)
  {
    DenominatorSign(x, radius);
    QuotientTimesDivisor(8.0 * Cube(radius), Denominator(x, radius));
  }

  /** Dividing by a non-zero d and multiplying by it again gives the dividend back. */
  lemma QuotientTimesDivisor(a: real, d: real)
    requires d != 0.0
    ensures (a / d) * d == a
  {
  }

  /** The curve is symmetric about x = 0. */
  lemma WitchIsEven(x: real, radius: real)
    ensures WitchOfAgnesi(-x, radius) == WitchOfAgnesi(x, radius)
  {
    assert Sq(-x) == Sq(x);
  }

  /** For a positive radius the curve lies in (0, 2·radius] and reaches its top 2·radius
      (the diameter of the generating circle) exactly at x = 0. */
  lemma WitchBounds(x: real, radius: real)
    requires radius > 0.0
    ensures WitchOfAgnesi(x, radius).Ok?
    ensures 0.0 < WitchOfAgnesi(x, radius).value <= 2.0 * radius
    ensures WitchOfAgnesi(x, radius).value == 2.0 * radius <==> x == 0.0
  {
    var d := Denominator(x, radius);
    var w := WitchOfAgnesi(x, radius).value;
    WitchOfAgnesiValue(x, radius);
    DenominatorSign(x, radius);
    SquareSign(x);
    SquareSign(radius);
    MulPositive(radius, Sq(radius));
    assert w * d == 8.0 * Cube(radius) > 0.0;
    QuotientPositive(w, d);
    // (2·radius)·d = 2·radius·x² + 8·radius³, so w·d <= (2·radius)·d with equality iff x² = 0
    assert (2.0 * radius) * d == 2.0 * (radius * Sq(x)) + 8.0 * Cube(radius);
    MulNonNegative(radius, Sq(x));
    if x != 0.0 {
      MulPositive(radius, Sq(x));
    }
    CompareByPositiveFactor(w, 2.0 * radius, d);
  }

  lemma QuotientPositive(w: real, d: real)
    requires d > 0.0 && w * d > 0.0
    ensures w > 0.0
  {
    if w <= 0.0 {
      MulNonNegative(-w, d);
    }
  }

  /** Multiplying by a positive factor preserves and reflects order and equality. */
  lemma CompareByPositiveFactor(a: real, b: real, d: real)
    requires d > 0.0
    ensures a * d <= b * d <==> a <= b
    ensures a * d == b * d <==> a == b
  {
    if a < b {
      MulPositive(b - a, d);
    } else if a > b {
      MulPositive(a - b, d);
    }
  }
}
