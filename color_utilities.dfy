/** helper_functions/color_utilities.py: conversion between the 0-360/0-100/0-100 HSV scales and
    Manim's 0-1 scales, the brightness change of `darker_or_brighter`, and the argument checks
    of `cycle_through_color_wheel`. Colours are their HSV triples; Manim's own colour objects
    are not part of this model. */
module ColorUtilities {
  import opened Wrappers
  import opened MathFunctions

  /** A colour as hue, saturation and value (brightness). */
  datatype Hsv = Hsv(h: real, s: real, v: real)

  /** The usual scales: hue in [0, 360], saturation and value in [0, 100]. */
  predicate OnUsualScale(c: Hsv) {
    0.0 <= c.h <= 360.0 && 0.0 <= c.s <= 100.0 && 0.0 <= c.v <= 100.0
  }

  /** Manim's scales: every component in [0, 1]. */
  predicate OnManimScale(c: Hsv) {
    0.0 <= c.h <= 1.0 && 0.0 <= c.s <= 1.0 && 0.0 <= c.v <= 1.0
  }

  /** `convert_manim_hsv_format(h, s, v, to_manim_color_format)`: towards Manim's scales (the
      default) each component becomes its fraction of the usual scale's top; the other way it
      is scaled back up. */
  function ConvertManimHsvFormat(color: Hsv, toManimColorFormat: Option<bool>): (r: Hsv)
    ensures toManimColorFormat.GetOr(true) ==>
              r.h * 360.0 == color.h && r.s * 100.0 == color.s && r.v * 100.0 == color.v
    ensures !toManimColorFormat.GetOr(true) ==>
              r.h / 360.0 == color.h && r.s / 100.0 == color.s && r.v / 100.0 == color.v
  {
    var toManim := if toManimColorFormat.None? then true else toManimColorFormat.value;
    if toManim then Hsv(color.h / 360.0, color.s / 100.0, color.v / 100.0)
    else Hsv(color.h * 360.0, color.s * 100.0, color.v * 100.0)
  }

  /** Converting to Manim's scales and back, or the other way round, gives the colour back. */
  lemma ConvertRoundTrip(color: Hsv)
    ensures ConvertManimHsvFormat(ConvertManimHsvFormat(color, None), Some(false)) == color
    ensures ConvertManimHsvFormat(ConvertManimHsvFormat(color, Some(false)), Some(true)) == color
  {
  }

  /** The conversion maps the usual scales exactly onto Manim's. */
  lemma ConvertScales(color: Hsv)
    ensures OnUsualScale(color) <==> OnManimScale(ConvertManimHsvFormat(color, None))
    ensures OnManimScale(color) <==> OnUsualScale(ConvertManimHsvFormat(color, Some(false)))
  {
  }

  /** The new value (brightness) of `darker_or_brighter` on the usual 0-100 scale: the change is
      added when brighter holds and subtracted otherwise, and the sum is clamped into [0, 100]. */
  function AdjustedBrightness(v: real, brighter: bool, change: int): (w: real)
    ensures 0.0 <= w <= 100.0
    ensures var target := if brighter then v + change as real else v - change as real;
            (0.0 <= target <= 100.0 ==> w == target)
            && (target > 100.0 ==> w == 100.0)
            && (target < 0.0 ==> w == 0.0)
  {
    var delta := if brighter then change else -1 * change;
    var w := v + delta as real;
    if w > 100.0 then 100.0 else if w < 0.0 then 0.0 else w
  }

  /** A non-negative change never darkens a colour when brightening and never brightens it
      when darkening, and the result is never farther from v than the change. */
  lemma AdjustedBrightnessDirection(v: real, brighter: bool, change: int)
    requires 0.0 <= v <= 100.0 && change >= 0
    ensures brighter ==> v <= AdjustedBrightness(v, brighter, change) <= v + change as real
    ensures !brighter ==> v - change as real <= AdjustedBrightness(v, brighter, change) <= v
  {
  }

  /** Applying a change that stays inside [0, 100] can be undone by the opposite change. */
  lemma AdjustedBrightnessUndo(v: real, change: int)
    requires 0.0 <= v && v + change as real <= 100.0 && change >= 0
    ensures AdjustedBrightness(AdjustedBrightness(v, true, change), false, change) == v
  {
  }

  /** `darker_or_brighter` on a colour given on Manim's scales: the change defaults to 50, the
      colour is darkened unless brighter is set, and the result is on Manim's scales again.
      Hue and saturation are unchanged; the value is the clamped one. */
  method DarkerOrBrighter(color: Hsv, brighter: Option<bool>, brightnessChange: Option<int>)
    returns (result: Hsv)
    ensures result.h == color.h && result.s == color.s
    ensures result.v * 100.0
            == AdjustedBrightness(color.v * 100.0, brighter.GetOr(false), brightnessChange.GetOr(50))
    ensures 0.0 <= result.v <= 1.0
  {
    var change := if brightnessChange.None? then 50 else brightnessChange.value;
    var originalColor := ConvertManimHsvFormat(color, Some(false));
    var newColor := [originalColor.h, originalColor.s, originalColor.v];
    if !brighter.GetOr(false) {
      change := -1 * change;
    }
    var v := newColor[2] + change as real;
    if v > 100.0 {
      v := 100.0;
    } else if v < 0.0 {
      v := 0.0;
    }
    newColor := newColor[2 := v];
    result := ConvertManimHsvFormat(Hsv(newColor[0], newColor[1], newColor[2]), None);
  }

  /** The settings `cycle_through_color_wheel` goes on with once its arguments are accepted:
      the number of colours, the saturation and brightness, and the hue step 359 / n. */
  datatype WheelSettings = WheelSettings(numberOfColors: int, saturation: int, brightness: int, step: real)

  /** The argument checks of `cycle_through_color_wheel`: saturation defaults to 80 and
      brightness to 100; fewer than 2 colours, or a saturation or brightness outside [0, 100],
      is a ValueError. */
  function CycleThroughColorWheelArguments(numberOfColors: int, baseSaturation: Option<int>,
                                           baseBrightness: Option<int>): (r: Result<WheelSettings>)
    ensures r.Ok? <==> numberOfColors >= 2 && 0 <= baseSaturation.GetOr(80) <= 100
                       && 0 <= baseBrightness.GetOr(100) <= 100
    ensures r.Err? ==> r.error == ValueError
    ensures r.Ok? ==> r.value.numberOfColors == numberOfColors
                      && r.value.saturation == baseSaturation.GetOr(80)
                      && r.value.brightness == baseBrightness.GetOr(100)
                      && r.value.step * numberOfColors as real == 359.0
  {
    var saturation := if baseSaturation.None? then 80 else baseSaturation.value;
    var brightness := if baseBrightness.None? then 100 else baseBrightness.value;
    if numberOfColors < 2 then Err(ValueError)
    else if !(0 <= saturation <= 100) || !(0 <= brightness <= 100) then Err(ValueError)
    else Ok(WheelSettings(numberOfColors, saturation, brightness, 359.0 / numberOfColors as real))
  }

  /** With the default saturation and brightness only the number of colours is checked, and
      the hue step puts the n-th hue one step short of 359. */
  lemma CycleThroughColorWheelDefaults(numberOfColors: int)
    ensures CycleThroughColorWheelArguments(numberOfColors, None, None).Ok? <==> numberOfColors >= 2
    ensures numberOfColors >= 2 ==>
              var step := CycleThroughColorWheelArguments(numberOfColors, None, None).value.step;
              0.0 < step <= 179.5 && step * (numberOfColors - 1) as real == 359.0 - step
  {
    if numberOfColors >= 2 {
      var step := CycleThroughColorWheelArguments(numberOfColors, None, None).value.step;
      var n := numberOfColors as real;
      assert step * n == 359.0;
      QuotientPositive(step, n);
      MulNonNegative(step, n - 2.0);
      assert step * (n - 2.0) == step * n - 2.0 * step;
      assert step * (numberOfColors - 1) as real == step * n - step;
    }
  }
}
