/** interpolation/shared_constants.py: the sample points on the Witch of Agnesi that the
    interpolation examples share, and the TeX pieces of a generic polynomial. */
module SharedConstants {
  import opened Wrappers
  import opened GeneralUtilities
  import opened MathFunctions
  import opened Polynomial
  import opened PointInterpolation

  // ---------------------------------------------------------------------------------------
  // Python's range
  // ---------------------------------------------------------------------------------------

  /** Python's `range(start, stop, step)` for a non-zero step: start, start + step, ... for as
      long as the value is short of stop in the direction of the step. */
  function Range(start: int, stop: int, step: int): seq<int>
    requires step != 0
    decreases if step > 0 then stop - start else start - stop
  {
    if (step > 0 && start < stop) || (step < 0 && start > stop) then
      [start] + Range(start + step, stop, step)
    else
      []
  }

  /** With a positive step the range is empty exactly when start is not below stop; otherwise it
      starts at start, goes up by step each time, stays in [start, stop), and its last value is
      within one step of stop. */
  lemma {:induction false} RangeShape(start: int, stop: int, step: int)
    requires step > 0
    ensures var xs := Range(start, stop, step);
            && (|xs| > 0 <==> start < stop)
            && (|xs| > 0 ==> xs[0] == start && stop - step <= xs[|xs| - 1] < stop)
            && (forall i :: 0 <= i < |xs| - 1 ==> xs[i + 1] == xs[i] + step)
            && (forall i :: 0 <= i < |xs| ==> start <= xs[i] < stop)
            && (forall i, j :: 0 <= i < j < |xs| ==> xs[i] < xs[j])
    decreases stop - start
  {
    if start < stop {
      var xs := Range(start, stop, step);
      var tail := Range(start + step, stop, step);
      RangeShape(start + step, stop, step);
      assert xs == [start] + tail;
      forall i | 0 <= i < |xs| - 1
        ensures xs[i + 1] == xs[i] + step
      {
        if i > 0 {
          assert xs[i + 1] == tail[i] && xs[i] == tail[i - 1];
        }
      }
    }
  }

  /** Euclidean remainders are unchanged by subtracting the divisor once, and a positive
      multiple of s is at least s. */
  lemma ModShift(a: int, s: int)
    requires s > 0
    ensures (a - s) % s == a % s
    ensures a > 0 && a % s == 0 ==> a >= s
  {
    var q, r := a / s, a % s;
    assert a == q * s + r && 0 <= r < s;
    assert a - s == (q - 1) * s + r;
    ModUnique(a - s, s, q - 1, r);
    if a > 0 && r == 0 && q < 1 {
      MulNonPositive(q, s);
    }
  }

  lemma MulNonPositive(q: int, s: int)
    requires q <= 0 && s > 0
    ensures q * s <= 0
  {
  }

  /** A quotient and remainder in [0, s) determine the Euclidean remainder. */
  lemma ModUnique(x: int, s: int, q: int, r: int)
    requires s > 0 && x == q * s + r && 0 <= r < s
    ensures x % s == r
  {
    var q', r' := x / s, x % s;
    assert x == q' * s + r' && 0 <= r' < s;
    assert (q - q') * s == r' - r;
    if q - q' >= 1 {
      MulAtLeast(q - q', s);
    } else if q' - q >= 1 {
      MulAtLeast(q' - q, s);
    }
  }

  lemma MulAtLeast(k: int, s: int)
    requires k >= 1 && s > 0
    ensures k * s >= s
  {
    assert k * s == (k - 1) * s + s;
    MulNonNegativeInt(k - 1, s);
  }

  lemma MulNonNegativeInt(k: int, s: int)
    requires k >= 0 && s > 0
    ensures k * s >= 0
  {
  }

  /** With a positive step, y is produced by the range exactly when it lies in [start, stop)
      and differs from start by a multiple of the step. */
  lemma {:induction false} RangeMembership(start: int, stop: int, step: int, y: int)
    requires step > 0
    ensures y in Range(start, stop, step) <==> start <= y < stop && (y - start) % step == 0
    decreases stop - start
  {
    if start < stop {
      RangeMembership(start + step, stop, step, y);
      ModShift(y - start, step);
      assert y - (start + step) == (y - start) - step;
      if start <= y && (y - start) % step == 0 && y != start {
        assert y >= start + step;
      }
    }
  }

  // ---------------------------------------------------------------------------------------
  // get_witch_of_agnesi_points_from_interval
  // ---------------------------------------------------------------------------------------

  /** The points (x, f(x)) for the x values in order; the first failing evaluation of the
      curve f is the result. */
  function EvaluatedPoints(xs: seq<int>, f: real -> Result<real>): Result<seq<Point>> {
    if |xs| == 0 then Ok([])
    else
      match EvaluatedPoints(xs[..|xs| - 1], f)
      case Err(e) => Err(e)
      case Ok(ps) =>
        match f(xs[|xs| - 1] as real)
        case Err(e) => Err(e)
        case Ok(y) => Ok(ps + [Point(xs[|xs| - 1] as real, y)])
  }

  /** The Witch of Agnesi with the given radius, as a curve. */
  function WitchCurve(radius: int): real -> Result<real> {
    x => WitchOfAgnesi(x, radius as real)
  }

  /** The points (x, witch_of_agnesi(x, radius)) for the x values in order. */
  function WitchPoints(xs: seq<int>, radius: int): Result<seq<Point>> {
    EvaluatedPoints(xs, WitchCurve(radius))
  }

  /** The points are there exactly when every evaluation succeeds, and then point i is x_i
      with the curve's value there; otherwise the error is that of a failing evaluation. */
  lemma {:induction false} EvaluatedPointsMeaning(xs: seq<int>, f: real -> Result<real>)
    ensures EvaluatedPoints(xs, f).Ok? <==> forall i :: 0 <= i < |xs| ==> f(xs[i] as real).Ok?
    ensures EvaluatedPoints(xs, f).Err? ==>
              exists i :: 0 <= i < |xs| && f(xs[i] as real) == Err(EvaluatedPoints(xs, f).error)
    ensures EvaluatedPoints(xs, f).Ok? ==>
              var ps := EvaluatedPoints(xs, f).value;
              |ps| == |xs| && forall i :: 0 <= i < |xs| ==> ps[i] == Point(xs[i] as real, f(xs[i] as real).value)
  {
    if |xs| > 0 {
      var n := |xs| - 1;
      EvaluatedPointsMeaning(xs[..n], f);
      assert forall i :: 0 <= i < n ==> xs[..n][i] == xs[i];
    }
  }

  /** Once a prefix of the x values fails, the whole list fails with the same error. */
  lemma {:induction false} EvaluatedPointsErrorPersists(xs: seq<int>, more: seq<int>, f: real -> Result<real>)
    requires EvaluatedPoints(xs, f).Err?
    ensures EvaluatedPoints(xs + more, f) == EvaluatedPoints(xs, f)
    decreases |more|
  {
    if |more| == 0 {
      assert xs + more == xs;
    } else {
      var n := |more| - 1;
      EvaluatedPointsErrorPersists(xs, more[..n], f);
      assert (xs + more)[..|xs + more| - 1] == xs + more[..n];
    }
  }

  /** Appending one x value appends its point, or fails with its evaluation's error. */
  lemma EvaluatedPointsSnoc(xs: seq<int>, x: int, f: real -> Result<real>)
    requires EvaluatedPoints(xs, f).Ok?
    ensures var w := f(x as real);
            EvaluatedPoints(xs + [x], f)
            == if w.Ok? then Ok(EvaluatedPoints(xs, f).value + [Point(x as real, w.value)]) else Err(w.error)
  {
    assert (xs + [x])[..|xs|] == xs;
  }

  /** Points of two successive lists of x values are the points of each, one after the other. */
  lemma {:induction false} EvaluatedPointsAppend(xs: seq<int>, ys: seq<int>, f: real -> Result<real>)
    requires EvaluatedPoints(xs, f).Ok? && EvaluatedPoints(ys, f).Ok?
    ensures EvaluatedPoints(xs + ys, f) == Ok(EvaluatedPoints(xs, f).value + EvaluatedPoints(ys, f).value)
    decreases |ys|
  {
    if |ys| == 0 {
      assert xs + ys == xs;
      assert EvaluatedPoints(xs, f).value + EvaluatedPoints(ys, f).value == EvaluatedPoints(xs, f).value;
    } else {
      var n := |ys| - 1;
      var init, y := ys[..n], ys[n];
      assert ys == init + [y];
      assert EvaluatedPoints(init, f).Ok?;
      EvaluatedPointsSnoc(init, y, f);
      EvaluatedPointsAppend(xs, init, f);
      assert xs + ys == (xs + init) + [y];
      EvaluatedPointsSnoc(xs + init, y, f);
      var p := Point(y as real, f(y as real).value);
      var a, b := EvaluatedPoints(xs, f).value, EvaluatedPoints(init, f).value;
      assert EvaluatedPoints(ys, f).value == b + [p];
      assert EvaluatedPoints(xs + ys, f).value == (a + b) + [p] == a + (b + [p]);
    }
  }

  /** For a curve that fails only at x = 0, and then with a ZeroDivisionError, when `zeroFails`
      holds: the points fail exactly when zeroFails holds and 0 is among the x values. */
  lemma EvaluatedPointsFailAtZero(xs: seq<int>, f: real -> Result<real>, zeroFails: bool)
    requires forall x :: f(x).Ok? <==> x != 0.0 || !zeroFails
    requires forall x :: f(x).Err? ==> f(x).error == ZeroDivisionError
    ensures EvaluatedPoints(xs, f).Ok? <==> !(zeroFails && 0 in xs)
    ensures EvaluatedPoints(xs, f).Err? ==> EvaluatedPoints(xs, f).error == ZeroDivisionError
  {
    EvaluatedPointsMeaning(xs, f);
    if zeroFails && 0 in xs {
      var i :| 0 <= i < |xs| && xs[i] == 0;
      assert !f(xs[i] as real).Ok?;
    } else {
      forall i | 0 <= i < |xs|
        ensures f(xs[i] as real).Ok?
      {
        assert xs[i] in xs;
      }
    }
  }

  /** The witch with radius r fails only at x = 0 with r = 0, with a ZeroDivisionError. */
  lemma WitchCurveFails(radius: int)
    ensures forall x :: WitchCurve(radius)(x).Ok? <==> x != 0.0 || radius != 0
    ensures forall x :: WitchCurve(radius)(x).Err? ==> WitchCurve(radius)(x).error == ZeroDivisionError
  {
  }

  /** Evaluation of the witch fails only at x = 0 with radius 0, with a ZeroDivisionError;
      otherwise point i is x_i with the curve's value there. */
  lemma WitchPointsMeaning(xs: seq<int>, radius: int)
    ensures WitchPoints(xs, radius).Ok? <==> !(radius == 0 && 0 in xs)
    ensures WitchPoints(xs, radius).Err? ==> WitchPoints(xs, radius).error == ZeroDivisionError
    ensures WitchPoints(xs, radius).Ok? ==>
              var ps := WitchPoints(xs, radius).value;
              |ps| == |xs| &&
              forall i :: 0 <= i < |xs| ==>
                ps[i] == Point(xs[i] as real, WitchOfAgnesi(xs[i] as real, radius as real).value)
  {
    WitchCurveFails(radius);
    EvaluatedPointsFailAtZero(xs, WitchCurve(radius), radius == 0);
    EvaluatedPointsMeaning(xs, WitchCurve(radius));
  }

  /** What `get_witch_of_agnesi_points_from_interval(x_start, x_end, spacing, radius)` returns:
      `range` refuses a zero step with a ValueError; otherwise the points for
      range(x_start, x_end + spacing, spacing). */
  function PointsFromInterval(xStart: int, xEnd: int, spacing: int, radius: int): Result<seq<Point>> {
    if spacing == 0 then Err(ValueError)
    else WitchPoints(Range(xStart, xEnd + spacing, spacing), radius)
  }

  /** The loop of `get_witch_of_agnesi_points_from_interval`: for each x value in order, the
      curve is evaluated there and [x, y] is appended; a failing evaluation ends it. */
  method EvaluatePoints(xs: seq<int>, f: real -> Result<real>) returns (r: Result<seq<Point>>)
    ensures r == EvaluatedPoints(xs, f)
  {
    var evaluatedPoints: seq<Point> := [];
    for i := 0 to |xs|
      invariant EvaluatedPoints(xs[..i], f) == Ok(evaluatedPoints)
    {
      var xValue := xs[i];
      var agnesiValue := f(xValue as real);
      assert xs[..i + 1] == xs[..i] + [xValue];
      EvaluatedPointsSnoc(xs[..i], xValue, f);
      if agnesiValue.Err? {
        EvaluatedPointsErrorPersists(xs[..i + 1], xs[i + 1..], f);
        assert xs[..i + 1] + xs[i + 1..] == xs;
        return Err(agnesiValue.error);
      }
      evaluatedPoints := evaluatedPoints + [Point(xValue as real, agnesiValue.value)];
    }
    assert xs[..|xs|] == xs;
    r := Ok(evaluatedPoints);
  }

  /** `get_witch_of_agnesi_points_from_interval`: spacing and radius default to 1, and the
      loop walks range(x_start, x_end + spacing, spacing) over the witch with that radius. */
  method GetWitchOfAgnesiPointsFromInterval(xStart: int, xEnd: int, xSpacing: Option<int>,
                                            witchOfAgnesiRadius: Option<int>)
    returns (r: Result<seq<Point>>)
    ensures r == PointsFromInterval(xStart, xEnd, xSpacing.GetOr(1), witchOfAgnesiRadius.GetOr(1))
  {
    var spacing := if xSpacing.None? then 1 else xSpacing.value;
    var radius := if witchOfAgnesiRadius.None? then 1 else witchOfAgnesiRadius.value;
    if spacing == 0 {
      return Err(ValueError);
    }
    r := EvaluatePoints(Range(xStart, xEnd + spacing, spacing), WitchCurve(radius));
  }

  /** For a positive spacing the x values of the points start at x_start and go up by the
      spacing; x_end is among them exactly when the spacing divides x_end - x_start (and
      x_start <= x_end); the last one is at least x_end and overshoots it by less than one step. */
  lemma PointsFromIntervalXs(xStart: int, xEnd: int, spacing: int, radius: int)
    requires spacing > 0 && radius != 0
    ensures var xs := Range(xStart, xEnd + spacing, spacing);
            && PointsFromInterval(xStart, xEnd, spacing, radius) == WitchPoints(xs, radius)
            && WitchPoints(xs, radius).Ok?
            && (forall i, j :: 0 <= i < j < |xs| ==> xs[i] < xs[j])
            && (xEnd in xs <==> xStart <= xEnd && (xEnd - xStart) % spacing == 0)
            && (|xs| > 0 ==> xs[0] == xStart && xEnd <= xs[|xs| - 1] < xEnd + spacing)
  {
    RangeShape(xStart, xEnd + spacing, spacing);
    RangeMembership(xStart, xEnd + spacing, spacing, xEnd);
    WitchPointsMeaning(Range(xStart, xEnd + spacing, spacing), radius);
  }

  // ---------------------------------------------------------------------------------------
  // The shared point lists
  // ---------------------------------------------------------------------------------------

  const WitchOfAgnesiRadius: int := 2
  const XSpacing: int := 2

  function Xs(ps: seq<Point>): (xs: seq<real>)
    ensures |xs| == |ps| && forall i :: 0 <= i < |ps| ==> xs[i] == ps[i].x
  {
    seq(|ps|, i requires 0 <= i < |ps| => ps[i].x)
  }

  /** `all_evaluated_points`: the points over [2, 6], then [-10, 0], then [8, 10], spacing 2,
      radius 2. */
  function AllEvaluatedPoints(): Result<seq<Point>> {
    var evaluatedPoints :- PointsFromInterval(2, 6, XSpacing, WitchOfAgnesiRadius);
    var moreEvaluatedPoints :- PointsFromInterval(-10, 0, XSpacing, WitchOfAgnesiRadius);
    var evenMoreEvaluatedPoints :- PointsFromInterval(8, 10, XSpacing, WitchOfAgnesiRadius);
    Ok(evaluatedPoints + moreEvaluatedPoints + evenMoreEvaluatedPoints)
  }

  lemma RangeFirstSegment()
    ensures Range(2, 8, 2) == [2, 4, 6]
  {
    assert Range(6, 8, 2) == [6];
    assert Range(4, 8, 2) == [4, 6];
  }

  lemma RangeSecondSegment()
    ensures Range(-10, 2, 2) == [-10, -8, -6, -4, -2, 0]
  {
    assert Range(0, 2, 2) == [0];
    assert Range(-2, 2, 2) == [-2, 0];
    assert Range(-4, 2, 2) == [-4, -2, 0];
    assert Range(-6, 2, 2) == [-6, -4, -2, 0];
    assert Range(-8, 2, 2) == [-8, -6, -4, -2, 0];
  }

  lemma RangeThirdSegment()
    ensures Range(8, 12, 2) == [8, 10]
  {
    assert Range(10, 12, 2) == [10];
  }

  /** The shared list is the points of its three intervals, one after the other. */
  lemma AllEvaluatedPointsLayout()
    ensures WitchPoints([2, 4, 6], 2).Ok? && WitchPoints([-10, -8, -6, -4, -2, 0], 2).Ok?
            && WitchPoints([8, 10], 2).Ok?
    ensures AllEvaluatedPoints()
            == Ok(WitchPoints([2, 4, 6], 2).value + WitchPoints([-10, -8, -6, -4, -2, 0], 2).value
                  + WitchPoints([8, 10], 2).value)
  {
    RangeFirstSegment();
    RangeSecondSegment();
    RangeThirdSegment();
    WitchPointsMeaning([2, 4, 6], 2);
    WitchPointsMeaning([-10, -8, -6, -4, -2, 0], 2);
    WitchPointsMeaning([8, 10], 2);
  }

  /** The eleven shared points, at x = 2, 4, 6, -10, -8, -6, -4, -2, 0, 8, 10 in that order, each
      on the curve with radius 2, and no x value twice. */
  lemma AllEvaluatedPointsValues()
    ensures AllEvaluatedPoints().Ok?
    ensures var ps := AllEvaluatedPoints().value;
            && Xs(ps) == [2.0, 4.0, 6.0, -10.0, -8.0, -6.0, -4.0, -2.0, 0.0, 8.0, 10.0]
            && OnCurve(ps, WitchCurve(2))
            && (forall i, j :: 0 <= i < j < |ps| ==> ps[i].x != ps[j].x)
  {
    AllEvaluatedPointsLayout();
    ThreeIntervalsOnCurve([2, 4, 6], [-10, -8, -6, -4, -2, 0], [8, 10], WitchCurve(2));
    AllEvaluatedXs();
    DistinctXs(AllEvaluatedPoints().value);
  }

  predicate Distinct(rs: seq<real>) {
    forall i, j :: 0 <= i < j < |rs| ==> rs[i] != rs[j]
  }

  /** Points whose x values are distinct reals have no x value twice. */
  lemma DistinctXs(ps: seq<Point>)
    requires Distinct(Xs(ps))
    ensures forall i, j :: 0 <= i < j < |ps| ==> ps[i].x != ps[j].x
  {
    var xs := Xs(ps);
    forall i, j | 0 <= i < j < |ps|
      ensures ps[i].x != ps[j].x
    {
      assert xs[i] != xs[j];
    }
  }

  /** The x values of the three intervals, as reals. */
  lemma AllEvaluatedXs()
    ensures Reals([2, 4, 6]) + Reals([-10, -8, -6, -4, -2, 0]) + Reals([8, 10])
            == [2.0, 4.0, 6.0, -10.0, -8.0, -6.0, -4.0, -2.0, 0.0, 8.0, 10.0]
    ensures Distinct([2.0, 4.0, 6.0, -10.0, -8.0, -6.0, -4.0, -2.0, 0.0, 8.0, 10.0])
  {
    assert Reals([2, 4, 6]) == [2.0, 4.0, 6.0];
    assert Reals([-10, -8, -6, -4, -2, 0]) == [-10.0, -8.0, -6.0, -4.0, -2.0, 0.0];
    assert Reals([8, 10]) == [8.0, 10.0];
    assert Distinct([2.0, 4.0, 6.0, -10.0, -8.0, -6.0, -4.0, -2.0, 0.0, 8.0, 10.0]);
  }

  /** The points of three lists of x values, one after the other, have those x values and lie
      on the curve. */
  lemma ThreeIntervalsOnCurve(a: seq<int>, b: seq<int>, c: seq<int>, f: real -> Result<real>)
    requires EvaluatedPoints(a, f).Ok? && EvaluatedPoints(b, f).Ok? && EvaluatedPoints(c, f).Ok?
    ensures var ps := EvaluatedPoints(a, f).value + EvaluatedPoints(b, f).value + EvaluatedPoints(c, f).value;
            Xs(ps) == Reals(a) + Reals(b) + Reals(c) && OnCurve(ps, f)
  {
    var pa, pb, pc := EvaluatedPoints(a, f).value, EvaluatedPoints(b, f).value, EvaluatedPoints(c, f).value;
    EvaluatedPointsOnCurve(a, f);
    EvaluatedPointsOnCurve(b, f);
    EvaluatedPointsOnCurve(c, f);
    XsAppend(pa, pb);
    XsAppend(pa + pb, pc);
    OnCurveAppend(pa, pb, f);
    OnCurveAppend(pa + pb, pc, f);
  }

  /** The integers as reals. */
  function Reals(xs: seq<int>): (rs: seq<real>)
    ensures |rs| == |xs| && forall i :: 0 <= i < |xs| ==> rs[i] == xs[i] as real
  {
    seq(|xs|, i requires 0 <= i < |xs| => xs[i] as real)
  }

  /** Every point lies on the curve f. */
  predicate OnCurve(ps: seq<Point>, f: real -> Result<real>) {
    forall i :: 0 <= i < |ps| ==> f(ps[i].x) == Ok(ps[i].y)
  }

  /** The points evaluated at the x values have those x values and lie on the curve. */
  lemma EvaluatedPointsOnCurve(xs: seq<int>, f: real -> Result<real>)
    requires EvaluatedPoints(xs, f).Ok?
    ensures Xs(EvaluatedPoints(xs, f).value) == Reals(xs)
    ensures OnCurve(EvaluatedPoints(xs, f).value, f)
  {
    EvaluatedPointsMeaning(xs, f);
  }

  lemma XsAppend(p: seq<Point>, q: seq<Point>)
    ensures Xs(p + q) == Xs(p) + Xs(q)
  {
  }

  lemma OnCurveAppend(p: seq<Point>, q: seq<Point>, f: real -> Result<real>)
    requires OnCurve(p, f) && OnCurve(q, f)
    ensures OnCurve(p + q, f)
  {
    forall i | |p| <= i < |p + q|
      ensures f((p + q)[i].x) == Ok((p + q)[i].y)
    {
      assert (p + q)[i] == q[i - |p|];
    }
  }

  predicate AscendingByX(ps: seq<Point>) {
    forall i, j :: 0 <= i < j < |ps| ==> ps[i].x <= ps[j].x
  }

  predicate StrictlyAscendingByX(ps: seq<Point>) {
    forall i, j :: 0 <= i < j < |ps| ==> ps[i].x < ps[j].x
  }

  /** `sorted_all_evaluated_points`, the copy of the shared points sorted by x: the points over
      [-10, 10] with spacing 2 and radius 2. */
  function SortedAllEvaluatedPoints(): Result<seq<Point>> {
    PointsFromInterval(-10, 10, XSpacing, WitchOfAgnesiRadius)
  }

  /** The sorted copy is the points of the second interval, then the first, then the third. */
  lemma SortedAllEvaluatedPointsLayout()
    ensures WitchPoints([2, 4, 6], 2).Ok? && WitchPoints([-10, -8, -6, -4, -2, 0], 2).Ok?
            && WitchPoints([8, 10], 2).Ok?
    ensures SortedAllEvaluatedPoints()
            == Ok(WitchPoints([-10, -8, -6, -4, -2, 0], 2).value + WitchPoints([2, 4, 6], 2).value
                  + WitchPoints([8, 10], 2).value)
  {
    var a, b, c := [2, 4, 6], [-10, -8, -6, -4, -2, 0], [8, 10];
    AllEvaluatedPointsLayout();
    SortedRange();
    EvaluatedPointsAppend(b, a, WitchCurve(2));
    EvaluatedPointsAppend(b + a, c, WitchCurve(2));
  }

  /** The x values of the sorted copy are those of the second interval, then the first, then
      the third. */
  lemma SortedRange()
    ensures Range(-10, 12, 2) == [-10, -8, -6, -4, -2, 0] + [2, 4, 6] + [8, 10]
  {
    assert Range(-10, 12, 2) == [-10] + Range(-8, 12, 2);
    RangeSuffixes();
  }

  /** The x values from -8 on, spacing 2, up to 12. */
  lemma RangeSuffixes()
    ensures Range(-8, 12, 2) == [-8, -6, -4, -2, 0, 2, 4, 6, 8, 10]
  {
    assert Range(10, 12, 2) == [10];
    assert Range(8, 12, 2) == [8, 10];
    assert Range(6, 12, 2) == [6, 8, 10];
    assert Range(4, 12, 2) == [4, 6, 8, 10];
    assert Range(2, 12, 2) == [2, 4, 6, 8, 10];
    assert Range(0, 12, 2) == [0, 2, 4, 6, 8, 10];
    assert Range(-2, 12, 2) == [-2, 0, 2, 4, 6, 8, 10];
    assert Range(-4, 12, 2) == [-4, -2, 0, 2, 4, 6, 8, 10];
    assert Range(-6, 12, 2) == [-6, -4, -2, 0, 2, 4, 6, 8, 10];
  }

  /** The sorted copy goes up strictly in x. */
  lemma SortedAllEvaluatedPointsAscending()
    ensures SortedAllEvaluatedPoints().Ok? && StrictlyAscendingByX(SortedAllEvaluatedPoints().value)
  {
    PointsFromIntervalXs(-10, 10, 2, 2);
    WitchPointsMeaning(Range(-10, 12, 2), 2);
  }

  /** The sorted copy is ascending in x and holds exactly the shared points; the shared list
      itself keeps its own order. */
  lemma SortedAllEvaluatedPointsIsSorted()
    ensures AllEvaluatedPoints().Ok? && SortedAllEvaluatedPoints().Ok?
    ensures StrictlyAscendingByX(SortedAllEvaluatedPoints().value)
    ensures multiset(SortedAllEvaluatedPoints().value) == multiset(AllEvaluatedPoints().value)
    ensures AllEvaluatedPoints().value != SortedAllEvaluatedPoints().value
  {
    AllEvaluatedPointsLayout();
    SortedAllEvaluatedPointsLayout();
    SortedAllEvaluatedPointsAscending();
    FirstIntervalsStart();
    var pa := WitchPoints([2, 4, 6], 2).value;
    var pb := WitchPoints([-10, -8, -6, -4, -2, 0], 2).value;
    var pc := WitchPoints([8, 10], 2).value;
    SwapFront(pa, pb, pc);
  }

  /** The first interval's points start at x = 2 and the second's at x = -10. */
  lemma FirstIntervalsStart()
    ensures WitchPoints([2, 4, 6], 2).Ok? && WitchPoints([-10, -8, -6, -4, -2, 0], 2).Ok?
    ensures |WitchPoints([2, 4, 6], 2).value| > 0 && WitchPoints([2, 4, 6], 2).value[0].x == 2.0
    ensures |WitchPoints([-10, -8, -6, -4, -2, 0], 2).value| > 0
            && WitchPoints([-10, -8, -6, -4, -2, 0], 2).value[0].x == -10.0
  {
    WitchPointsMeaning([2, 4, 6], 2);
    WitchPointsMeaning([-10, -8, -6, -4, -2, 0], 2);
  }

  /** Swapping the first two of three lists keeps their points and, when the lists start
      differently, changes the whole. */
  lemma SwapFront(a: seq<Point>, b: seq<Point>, c: seq<Point>)
    requires |a| > 0 && |b| > 0 && a[0] != b[0]
    ensures multiset(b + a + c) == multiset(a + b + c)
    ensures a + b + c != b + a + c
  {
    assert (a + b + c)[0] == a[0] && (b + a + c)[0] == b[0];
  }

  /** A list ascending in x and a list strictly ascending in x with the same points have the
      same length and start with the same point. */
  lemma SortedPermutationHead(a: seq<Point>, b: seq<Point>)
    requires AscendingByX(a) && StrictlyAscendingByX(b) && multiset(a) == multiset(b) && |b| > 0
    ensures |a| == |b| && a[0] == b[0]
  {
    assert |a| == |multiset(a)| == |multiset(b)| == |b|;
    assert b[0] in multiset(a) && a[0] in multiset(b);
    var i :| 0 <= i < |a| && a[i] == b[0];
    var j :| 0 <= j < |b| && b[j] == a[0];
    assert a[0].x <= a[i].x == b[0].x <= b[j].x == a[0].x;
    assert j == 0;
  }

  /** Lists with the same points and the same first point have the same points after it. */
  lemma TailMultisets(a: seq<Point>, b: seq<Point>)
    requires |a| > 0 && |b| > 0 && a[0] == b[0] && multiset(a) == multiset(b)
    ensures multiset(a[1..]) == multiset(b[1..])
  {
    assert a == [a[0]] + a[1..] && b == [b[0]] + b[1..];
    assert multiset(a[1..]) == multiset(a) - multiset{a[0]};
    assert multiset(b[1..]) == multiset(b) - multiset{b[0]};
  }

  /** Sorting by x has only one possible outcome here: a list ascending in x with the same
      points as a list strictly ascending in x is that list. */
  lemma {:induction false} SortedPermutationUnique(a: seq<Point>, b: seq<Point>)
    requires AscendingByX(a) && StrictlyAscendingByX(b) && multiset(a) == multiset(b)
    ensures a == b
  {
    if |b| == 0 {
      assert |a| == |multiset(a)| == 0;
    } else {
      SortedPermutationHead(a, b);
      TailMultisets(a, b);
      SortedPermutationUnique(a[1..], b[1..]);
      assert a == [a[0]] + a[1..] && b == [b[0]] + b[1..];
    }
  }

  /** Whatever order-by-x sort produced the sorted copy, it is this list. */
  lemma SortedAllEvaluatedPointsUnique(ps: seq<Point>)
    requires AllEvaluatedPoints().Ok?
    requires AscendingByX(ps) && multiset(ps) == multiset(AllEvaluatedPoints().value)
    ensures SortedAllEvaluatedPoints() == Ok(ps)
  {
    SortedAllEvaluatedPointsIsSorted();
    SortedPermutationUnique(ps, SortedAllEvaluatedPoints().value);
  }

  // ---------------------------------------------------------------------------------------
  // generate_generic_polynomial_equation (with centered_point = None)
  // ---------------------------------------------------------------------------------------

  function Max0(n: int): nat {
    if n > 0 then n else 0
  }

  /** `"c_{%d}{%s}^{%d}" % (i, "x", power)`. */
  function PowerTerm(i: int, power: int): string {
    "c_{" + IntToString(i) + "}{" + "x" + "}^{" + IntToString(power) + "}"
  }

  /** Each element followed by the separator: [x0, sep, x1, sep, ...]. */
  function Interleave<T>(xs: seq<T>, sep: T): (r: seq<T>)
    ensures |r| == 2 * |xs|
  {
    seq(2 * |xs|, i requires 0 <= i < 2 * |xs| => if i % 2 == 0 then xs[i / 2] else sep)
  }

  lemma InterleaveSnoc<T>(xs: seq<T>, x: T, sep: T)
    ensures Interleave(xs + [x], sep) == Interleave(xs, sep) + [x, sep]
  {
    var a, b := Interleave(xs + [x], sep), Interleave(xs, sep) + [x, sep];
    forall i | 0 <= i < |a|
      ensures a[i] == b[i]
    {
      if i < 2 * |xs| {
        assert i / 2 < |xs|;
      }
    }
  }

  /** Element k sits at index 2k, and the separator after it at 2k + 1. */
  lemma InterleaveAt<T>(xs: seq<T>, sep: T, k: nat)
    requires k < |xs|
    ensures Interleave(xs, sep)[2 * k] == xs[k] && Interleave(xs, sep)[2 * k + 1] == sep
  {
    assert (2 * k) / 2 == k && (2 * k) % 2 == 0 && (2 * k + 1) % 2 == 1;
  }

  /** The terms c_1, ..., c_n of a degree-`degree` polynomial: c_i has power degree - i + 1. */
  function Terms(degree: int, n: nat): (ts: seq<string>)
    ensures |ts| == n
  {
    seq(n, k requires 0 <= k < n => PowerTerm(k + 1, degree - k))
  }

  lemma TermsAt(degree: int, n: nat, k: nat)
    requires k < n
    ensures Terms(degree, n)[k] == PowerTerm(k + 1, degree - k)
  {
  }

  /** The first n terms of a degree-`degree` polynomial, each followed by "+". */
  function PowerTerms(degree: int, n: nat): (pieces: seq<string>)
    ensures |pieces| == 2 * n
  {
    Interleave(Terms(degree, n), "+")
  }

  /** One more pass of the loop appends the next term and "+". */
  lemma PowerTermsSnoc(degree: int, n: nat)
    ensures PowerTerms(degree, n + 1) == PowerTerms(degree, n) + [PowerTerm(n + 1, degree - n), "+"]
  {
    assert Terms(degree, n + 1) == Terms(degree, n) + [PowerTerm(n + 1, degree - n)];
    InterleaveSnoc(Terms(degree, n), PowerTerm(n + 1, degree - n), "+");
  }

  /** The number of terms the loop writes with an explicit power. */
  function TermCount(degree: int, showImplicitPowers: bool): nat {
    if showImplicitPowers then Max0(degree) else Max0(degree - 1)
  }

  /** The pieces after the loop: the `c_{degree}x` term and "+" unless the implicit powers are
      shown, then the constant term. */
  function ClosingTerms(degree: int, showImplicitPowers: bool): (pieces: seq<string>)
    ensures |pieces| == if showImplicitPowers then 1 else 3
  {
    (if showImplicitPowers then [] else ["c_{" + IntToString(degree) + "}" + "x", "+"])
    + ["c_{" + IntToString(degree + 1) + "} " + (if showImplicitPowers then "x^0" else "")]
  }

  /** The list `generate_generic_polynomial_equation(degree, None, show_implicit_powers)`
      returns: "y=", the terms with explicit powers, then the closing terms. */
  function GenericPolynomialEquation(degree: int, showImplicitPowers: bool): seq<string> {
    ["y="] + PowerTerms(degree, TermCount(degree, showImplicitPowers)) + ClosingTerms(degree, showImplicitPowers)
  }

  /** `generate_generic_polynomial_equation` for `centered_point=None`: the powers
      degree, ..., 1 are listed by reversing range(1, degree + 1), and the loop runs degree - 1
      times (or once per power when the implicit powers are shown). */
  method GenerateGenericPolynomialEquation(degree: int, showImplicitPowers: Option<bool>)
    returns (latexStringsList: seq<string>)
    ensures latexStringsList == GenericPolynomialEquation(degree, showImplicitPowers.GetOr(false))
  {
    var implicitPowers := if showImplicitPowers.None? then false else showImplicitPowers.value;
    var xString := "x";
    latexStringsList := ["y="];
    var xPowers := seq(Max0(degree), i requires 0 <= i < Max0(degree) => i + 1);
    xPowers := Reverse(xPowers);
    var count := if !implicitPowers then Max0(degree - 1) else |xPowers|;
    for i := 0 to count
      invariant latexStringsList == ["y="] + PowerTerms(degree, i)
    {
      var power := xPowers[i];
      assert power == degree - i;
      var term := "c_{" + IntToString(i + 1) + "}{" + xString + "}^{" + IntToString(power) + "}";
      PowerTermsSnoc(degree, i);
      latexStringsList := latexStringsList + [term, "+"];
    }
    if !implicitPowers {
      latexStringsList := latexStringsList + ["c_{" + IntToString(degree) + "}" + xString, "+"];
    }
    latexStringsList := latexStringsList
      + ["c_{" + IntToString(degree + 1) + "} " + (if implicitPowers then "x^0" else "")];
  }

  /** Pass k of the loop writes the term of c_{k+1} and then "+". */
  lemma PowerTermsAt(degree: int, n: nat, k: nat)
    requires k < n
    ensures PowerTerms(degree, n)[2 * k] == PowerTerm(k + 1, degree - k)
    ensures PowerTerms(degree, n)[2 * k + 1] == "+"
  {
    InterleaveAt(Terms(degree, n), "+", k);
  }

  /** In [first] + Interleave(xs, sep) + rest, element k of xs sits at index 2k + 1 and a
      separator at 2k + 2. */
  lemma FramedInterleaveAt<T>(first: T, xs: seq<T>, sep: T, rest: seq<T>, k: nat)
    requires k < |xs|
    ensures ([first] + Interleave(xs, sep) + rest)[2 * k + 1] == xs[k]
    ensures ([first] + Interleave(xs, sep) + rest)[2 * k + 2] == sep
  {
    InterleaveAt(xs, sep, k);
  }

  /** After the loop's terms: the `c_{degree}x` term and "+" unless the implicit powers are
      shown, then the constant term. */
  lemma EquationTail(degree: int, showImplicitPowers: bool)
    ensures var eq, n := GenericPolynomialEquation(degree, showImplicitPowers), TermCount(degree, showImplicitPowers);
            && |eq| == 2 * n + (if showImplicitPowers then 2 else 4)
            && (!showImplicitPowers ==>
                  eq[2 * n + 1] == "c_{" + IntToString(degree) + "}x" && eq[2 * n + 2] == "+")
            && eq[|eq| - 1] == "c_{" + IntToString(degree + 1) + "} " + (if showImplicitPowers then "x^0" else "")
  {
    var eq, n := GenericPolynomialEquation(degree, showImplicitPowers), TermCount(degree, showImplicitPowers);
    assert eq[2 * n + 1..] == ClosingTerms(degree, showImplicitPowers);
    if !showImplicitPowers {
      assert eq[2 * n + 1] == eq[2 * n + 1..][0];
      assert eq[2 * n + 2] == eq[2 * n + 1..][1];
    }
  }

  /** For degree >= 1 (or degree >= 0 with the implicit powers shown) the list has 2·degree + 2
      pieces: "y=" first, "+" at every even index 2, ..., 2·degree, and at odd index 2k + 1 the
      term of coefficient c_{k+1}; its power is degree - k, written out except for the power 1
      when the implicit powers are hidden, and the last term is the constant c_{degree+1}. */
  lemma GenericPolynomialEquationShape(degree: int, showImplicitPowers: bool)
    requires degree >= 1 || (showImplicitPowers && degree >= 0)
    ensures var eq := GenericPolynomialEquation(degree, showImplicitPowers);
            && |eq| == 2 * degree + 2
            && eq[0] == "y="
            && (forall k :: 1 <= k <= degree ==> eq[2 * k] == "+")
            && (forall k :: 0 <= k < degree ==>
                  eq[2 * k + 1] == (if showImplicitPowers || k < degree - 1 then PowerTerm(k + 1, degree - k)
                                    else "c_{" + IntToString(k + 1) + "}x"))
            && eq[2 * degree + 1] == "c_{" + IntToString(degree + 1) + "} " + (if showImplicitPowers then "x^0" else "")
  {
    var eq, n := GenericPolynomialEquation(degree, showImplicitPowers), TermCount(degree, showImplicitPowers);
    EquationTail(degree, showImplicitPowers);
    EquationPluses(degree, showImplicitPowers);
    EquationTerms(degree, showImplicitPowers);
    assert n == if showImplicitPowers then degree else degree - 1;
  }

  /** Pass k of the loop wrote "+" at index 2k + 2. */
  lemma EquationPluses(degree: int, showImplicitPowers: bool)
    ensures var eq, n := GenericPolynomialEquation(degree, showImplicitPowers), TermCount(degree, showImplicitPowers);
            |eq| > 2 * n && forall k :: 1 <= k <= n ==> eq[2 * k] == "+"
  {
    var eq, n := GenericPolynomialEquation(degree, showImplicitPowers), TermCount(degree, showImplicitPowers);
    var terms, rest := Terms(degree, n), ClosingTerms(degree, showImplicitPowers);
    forall k | 1 <= k <= n
      ensures eq[2 * k] == "+"
    {
      var j := k - 1;
      FramedInterleaveAt("y=", terms, "+", rest, j);
      assert 2 * j + 2 == 2 * k;
    }
  }

  /** Pass k of the loop wrote the term of c_{k+1} at index 2k + 1. */
  lemma EquationTerms(degree: int, showImplicitPowers: bool)
    ensures var eq, n := GenericPolynomialEquation(degree, showImplicitPowers), TermCount(degree, showImplicitPowers);
            |eq| > 2 * n && forall k :: 0 <= k < n ==> eq[2 * k + 1] == PowerTerm(k + 1, degree - k)
  {
    var eq, n := GenericPolynomialEquation(degree, showImplicitPowers), TermCount(degree, showImplicitPowers);
    var terms, rest := Terms(degree, n), ClosingTerms(degree, showImplicitPowers);
    forall k | 0 <= k < n
      ensures eq[2 * k + 1] == PowerTerm(k + 1, degree - k)
    {
      FramedInterleaveAt("y=", terms, "+", rest, k);
      TermsAt(degree, n, k);
    }
  }

  /** The module-level constant GENERIC_POLYNOMIAL_EQUATION_DEGREE_1, and the degree-1 list
      with the implicit powers shown. */
  lemma GenericPolynomialEquationDegreeOne()
    ensures GenericPolynomialEquation(1, false) == ["y=", "c_{1}x", "+", "c_{2} "]
    ensures GenericPolynomialEquation(1, true) == ["y=", "c_{1}{x}^{1}", "+", "c_{2} x^0"]
  {
    assert IntToString(1) == "1" && IntToString(2) == "2";
    assert "c_{" + IntToString(1) + "}" + "x" == "c_{1}x";
    assert "c_{" + IntToString(2) + "} " + "" == "c_{2} ";
    assert "c_{" + IntToString(2) + "} " + "x^0" == "c_{2} x^0";
    assert PowerTerm(1, 1) == "c_{1}{x}^{1}";
    assert PowerTerms(1, 0) == [];
    PowerTermsSnoc(1, 0);
  }

  /** The module-level constant GENERIC_POLYNOMIAL_EQUATION_DEGREE_2. */
  lemma GenericPolynomialEquationDegreeTwo()
    ensures GenericPolynomialEquation(2, false) == ["y=", "c_{1}{x}^{2}", "+", "c_{2}x", "+", "c_{3} "]
  {
    assert IntToString(1) == "1" && IntToString(2) == "2" && IntToString(3) == "3";
    assert "c_{" + IntToString(2) + "}" + "x" == "c_{2}x";
    assert "c_{" + IntToString(3) + "} " + "" == "c_{3} ";
    assert PowerTerm(1, 2) == "c_{1}{x}^{2}";
    assert PowerTerms(2, 0) == [];
    PowerTermsSnoc(2, 0);
  }

  /** The module-level constant GENERIC_POLYNOMIAL_EQUATION_DEGREE_3. */
  lemma GenericPolynomialEquationDegreeThree()
    ensures GenericPolynomialEquation(3, false)
            == ["y=", "c_{1}{x}^{3}", "+", "c_{2}{x}^{2}", "+", "c_{3}x", "+", "c_{4} "]
  {
    assert IntToString(1) == "1" && IntToString(2) == "2";
    assert IntToString(3) == "3" && IntToString(4) == "4";
    assert "c_{" + IntToString(3) + "}" + "x" == "c_{3}x";
    assert "c_{" + IntToString(4) + "} " + "" == "c_{4} ";
    assert PowerTerm(1, 3) == "c_{1}{x}^{3}";
    assert PowerTerm(2, 2) == "c_{2}{x}^{2}";
    assert PowerTerms(3, 0) == [];
    PowerTermsSnoc(3, 0);
    PowerTermsSnoc(3, 1);
    assert PowerTerms(3, 2) == [PowerTerm(1, 3), "+", PowerTerm(2, 2), "+"];
  }

  lemma GenericPolynomialEquationDegreeZero()
    ensures GenericPolynomialEquation(0, false) == ["y=", "c_{0}x", "+", "c_{1} "]
  {
    assert IntToString(0) == "0" && IntToString(1) == "1";
    assert "c_{" + IntToString(0) + "}" + "x" == "c_{0}x";
    assert "c_{" + IntToString(1) + "} " + "" == "c_{1} ";
    assert PowerTerms(0, 0) == [];
  }
}
