/** helper_functions/knob/knob.py: a knob's value range and the rotation angle that shows a
    value on it. The value π is a parameter, since reals in this model are exact. */
module KnobRotation {
  import opened Wrappers
  import opened MathFunctions

  /** The bounds of a knob's value range. */
  datatype Knob = Knob(minValue: real, maxValue: real) {

    /** `get_knob_rotation_angle(value)`: the linear map that turns the value min into the
        angle π/4 and max into -π/4. Equal bounds make `(max - min) ** -1` a division by zero;
        an angle outside [-π/4, π/4] is a ValueError. */
    function GetKnobRotationAngle(value: real, pi: real): (r: Result<real>)
      ensures r.Err? && r.error == ZeroDivisionError <==> maxValue == minValue
      ensures r.Ok? ==> -pi / 4.0 <= r.value <= pi / 4.0
      ensures r.Ok? ==> (r.value - pi / 4.0) * (maxValue - minValue) == -(pi / 2.0) * (value - minValue)
    {
      var maxRotation := -pi / 4.0;
      var minRotation := -1.0 * maxRotation;
      if maxValue - minValue == 0.0 then Err(ZeroDivisionError)
      else
        var rotationAngle := RotationAngle(value, pi);
        if rotationAngle > minRotation || rotationAngle < maxRotation then Err(ValueError)
        else Ok(rotationAngle)
    }

    /** The angle `get_knob_rotation_angle` computes before its range check: with
        k = (max_rotation - min_rotation)·(max - min)^-1, min_rotation + k·(value - min). */
    function RotationAngle(value: real, pi: real): (a: real)
      requires maxValue != minValue
      ensures (a - pi / 4.0) * (maxValue - minValue) == -(pi / 2.0) * (value - minValue)
    {
      var maxRotation := -pi / 4.0;
      var minRotation := -1.0 * maxRotation;
      var k := (maxRotation - minRotation) * (1.0 / (maxValue - minValue));
      minRotation + k * (value - minValue)
    }

    /** The angle before the range check: π/4 less the fraction of the way from min to max,
        times π/2. */
    function Angle(value: real, pi: real): real
      requires maxValue != minValue
    {
      pi / 4.0 - (pi / 2.0) * Fraction(value)
    }

    /** How far value lies along the way from min to max (0 at min, 1 at max). */
    function Fraction(value: real): real
      requires maxValue != minValue
    {
      (value - minValue) / (maxValue - minValue)
    }

    predicate Between(value: real) {
      (minValue <= value <= maxValue) || (maxValue <= value <= minValue)
    }
  }

  /** `Knob.__init__`: the bounds default to 1 and 10. */
  function NewKnob(minValue: Option<real>, maxValue: Option<real>): (k: Knob)
    ensures minValue.Some? ==> k.minValue == minValue.value
    ensures maxValue.Some? ==> k.maxValue == maxValue.value
    ensures minValue.None? ==> k.minValue == 1.0
    ensures maxValue.None? ==> k.maxValue == 10.0
  {
    var low := if minValue.None? then 1.0 else minValue.value;
    var high := if maxValue.None? then 10.0 else maxValue.value;
    Knob(low, high)
  }

  /** Unless the bounds are equal, the angle computed is π/4 less π/2 times the fraction of the
      way from min to max, and it is returned whenever it lies within [-π/4, π/4]. */
  lemma RotationAngleIsAngle(knob: Knob, value: real, pi: real)
    requires knob.maxValue != knob.minValue
    ensures knob.RotationAngle(value, pi) == knob.Angle(value, pi)
    ensures var a := knob.Angle(value, pi);
            knob.GetKnobRotationAngle(value, pi)
            == if -pi / 4.0 <= a <= pi / 4.0 then Ok(a) else Err(ValueError)
  {
    var d := knob.maxValue - knob.minValue;
    var t := value - knob.minValue;
    var k := (-pi / 4.0 - -1.0 * (-pi / 4.0)) * (1.0 / d);
    assert k == -(pi / 2.0) * (1.0 / d);
    assert k * t == -(pi / 2.0) * ((1.0 / d) * t);
    assert (1.0 / d) * t == t / d == knob.Fraction(value);
  }

  /** With π > 0 the angle is π/4 at min and -π/4 at max, whatever the order of the bounds. */
  lemma RotationAngleEndpoints(knob: Knob, pi: real)
    requires knob.maxValue != knob.minValue && pi > 0.0
    ensures knob.GetKnobRotationAngle(knob.minValue, pi) == Ok(pi / 4.0)
    ensures knob.GetKnobRotationAngle(knob.maxValue, pi) == Ok(-pi / 4.0)
  {
    RotationAngleIsAngle(knob, knob.minValue, pi);
    RotationAngleIsAngle(knob, knob.maxValue, pi);
  }

  /** With π > 0 a value is accepted exactly when it lies between the bounds. */
  lemma RotationAngleAccepts(knob: Knob, value: real, pi: real)
    requires knob.maxValue != knob.minValue && pi > 0.0
    ensures knob.GetKnobRotationAngle(value, pi).Ok? <==> knob.Between(value)
    ensures knob.GetKnobRotationAngle(value, pi).Err? ==> knob.GetKnobRotationAngle(value, pi).error == ValueError
  {
    RotationAngleIsAngle(knob, value, pi);
    AngleWithinRange(pi, knob.Fraction(value));
    FractionBetween(knob, value);
  }

  /** π/4 − (π/2)·f lies within [-π/4, π/4] exactly when 0 ≤ f ≤ 1. */
  lemma AngleWithinRange(pi: real, f: real)
    requires pi > 0.0
    ensures -pi / 4.0 <= pi / 4.0 - (pi / 2.0) * f <= pi / 4.0 <==> 0.0 <= f <= 1.0
  {
    CompareByPositiveFactor(0.0, f, pi / 2.0);
    CompareByPositiveFactor(f, 1.0, pi / 2.0);
  }

  /** The fraction of the way from min to max lies in [0, 1] exactly when the value lies
      between the bounds. */
  lemma FractionBetween(knob: Knob, value: real)
    requires knob.maxValue != knob.minValue
    ensures 0.0 <= knob.Fraction(value) <= 1.0 <==> knob.Between(value)
  {
    var d := knob.maxValue - knob.minValue;
    var f := knob.Fraction(value);
    var t := value - knob.minValue;
    assert f * d == t;
    if d > 0.0 {
      CompareByPositiveFactor(0.0, f, d);
      CompareByPositiveFactor(f, 1.0, d);
    } else {
      var e := -d;
      CompareByPositiveFactor(0.0, f, e);
      CompareByPositiveFactor(f, 1.0, e);
      assert f * e == -t && 0.0 * e == 0.0 && 1.0 * e == e;
      assert 0.0 <= f <==> value <= knob.minValue;
      assert f <= 1.0 <==> knob.maxValue <= value;
    }
  }

  /** With π > 0 and max > min the angle falls strictly as the value grows. */
  lemma RotationAngleDecreasing(knob: Knob, v: real, w: real, pi: real)
    requires knob.maxValue > knob.minValue && pi > 0.0 && v < w
    ensures knob.Angle(v, pi) > knob.Angle(w, pi)
  {
    var d := knob.maxValue - knob.minValue;
    var fv, fw := knob.Fraction(v), knob.Fraction(w);
    assert fv * d == v - knob.minValue && fw * d == w - knob.minValue;
    CompareByPositiveFactor(fw, fv, d);
    CompareByPositiveFactor(fw, fv, pi / 2.0);
  }

  /** The default knob runs from 1 to 10; its midpoint 5.5 is shown upright. */
  lemma DefaultKnobAngles(pi: real)
    requires pi > 0.0
    ensures NewKnob(None, None) == Knob(1.0, 10.0)
    ensures NewKnob(None, None).GetKnobRotationAngle(1.0, pi) == Ok(pi / 4.0)
    ensures NewKnob(None, None).GetKnobRotationAngle(10.0, pi) == Ok(-pi / 4.0)
    ensures NewKnob(None, None).GetKnobRotationAngle(5.5, pi) == Ok(0.0)
    ensures NewKnob(None, None).GetKnobRotationAngle(11.0, pi) == Err(ValueError)
  {
    var knob := NewKnob(None, None);
    RotationAngleEndpoints(knob, pi);
    RotationAngleIsAngle(knob, 5.5, pi);
    assert knob.Fraction(5.5) == 0.5;
    RotationAngleAccepts(knob, 11.0, pi);
  }
}
