/** helper_functions/point_interpolation.py: fitting polynomials through points, either one
    polynomial for all of them (exactly, or by least squares), one line per pair of
    neighbours, or natural cubic splines over windows of three points.
    `numpy.linalg.solve` is the parameter `solve`, specified by `IsLinearSolver`. */
module PointInterpolation {
  import opened Wrappers
  import opened MatrixUtilities
  import opened LinearAlgebra
  import opened Polynomial
  import opened PolynomialShift

  /** A point [x, y] of the source's lists of points. */
  datatype Point = Point(x: real, y: real)

  /** What `interpolate_over` returns: the coefficients, lowest power first, and with
      `return_matricies` also the system A·c = b they solve. */
  datatype Fit =
    | Coefficients(coefficients: Vector)
    | WithMatrices(coefficients: Vector, A: Matrix, b: Vector)

  /** The number of entries in a row: 1 for the constant term, then one per power 1..degree
      (none when the degree is below 1, as `range(1, degree + 1)` is then empty). */
  function Width(degree: int): nat {
    if degree >= 0 then degree + 1 else 1
  }

  /** The input value a row is built from: x − center when a center is given, x otherwise. */
  function Shift(x: real, center: Option<real>): real {
    match center
    case Some(m) => x - m
    case None => x
  }

  /** The coefficient matrix of lines 56-68: row a is [1, t, t², …, t^degree] at t = Shift(x_a). */
  function Vandermonde(points: seq<Point>, degree: int, center: Option<real>): (A: Matrix)
    ensures |A| == |points| && Rectangular(A, Width(degree))
  {
    seq(|points|, a requires 0 <= a < |points| => PowerRow(Shift(points[a].x, center), Width(degree)))
  }

  /** The value matrix of lines 56-68: the y of every point, in order. */
  function Values(points: seq<Point>): (b: Vector)
    ensures |b| == |points| && forall a :: 0 <= a < |points| ==> b[a] == points[a].y
  {
    seq(|points|, a requires 0 <= a < |points| => points[a].y)
  }

  /** The system handed to the solver: the Vandermonde system, or with least squares the
      normal equations (AᵀA)·c = Aᵀb, both built from the original A (lines 70-72). */
  function System(points: seq<Point>, degree: int, leastSquares: bool, center: Option<real>): (Matrix, Vector) {
    var A := Vandermonde(points, degree, center);
    if leastSquares then
      (NormalMatrix(A, Width(degree)), MatVec(TransposeOf(A, Width(degree)), Values(points)))
    else
      (A, Values(points))
  }

  /** The degree used: the one given, or one less than the number of points. */
  function DegreeOrDefault(points: seq<Point>, degree: Option<int>): int {
    degree.GetOr(|points| - 1)
  }

  /** The guard of lines 47-52: an under-degree fit needs least squares acknowledged. */
  predicate RejectsDegree(points: seq<Point>, degree: Option<int>, lineOfBestFit: Option<bool>) {
    DegreeOrDefault(points, degree) < |points| - 1 && !lineOfBestFit.GetOr(false)
  }

  /** `interpolate_over(points, polynomial_degree, line_of_best_fit, return_matricies,
      center_around_point)` (lines 16-82) as a value. */
  function Interpolation(points: seq<Point>, degree: Option<int>, lineOfBestFit: Option<bool>,
                         returnMatrices: Option<bool>, center: Option<real>,
                         solve: (Matrix, Vector) -> Result<Vector>): Result<Fit>
  {
    if RejectsDegree(points, degree, lineOfBestFit) then
      Err(ValueError)
    else
      var system := System(points, DegreeOrDefault(points, degree), lineOfBestFit.GetOr(false), center);
      var c :- solve(system.0, system.1);
      if returnMatrices.GetOr(false) then Ok(WithMatrices(c, system.0, system.1)) else Ok(Coefficients(c))
  }

  /** `interpolate_over`: the defaults are filled in, the guard is checked, the rows are
      built point by point and power by power, then replaced by the normal equations when a
      line of best fit is asked for, and the system is solved. */
  method InterpolateOver(points: seq<Point>, degree: Option<int>, lineOfBestFit: Option<bool>,
                         returnMatrices: Option<bool>, center: Option<real>,
                         solve: (Matrix, Vector) -> Result<Vector>) returns (r: Result<Fit>)
    ensures r == Interpolation(points, degree, lineOfBestFit, returnMatrices, center, solve)
  {
    var polynomialDegree := if degree.None? then |points| - 1 else degree.value;
    var leastSquares := if lineOfBestFit.None? then false else lineOfBestFit.value;
    var withMatrices := if returnMatrices.None? then false else returnMatrices.value;
    if polynomialDegree < |points| - 1 && !leastSquares {
      return Err(ValueError);
    }
    var coefficientMatrix: Matrix := [];
    var valueMatrix: Vector := [];
    var a := 0;
    while a < |points|
      invariant 0 <= a <= |points|
      invariant coefficientMatrix == Vandermonde(points[..a], polynomialDegree, center)
      invariant valueMatrix == Values(points[..a])
    {
      var inputValue, outputValue := points[a].x, points[a].y;
      valueMatrix := valueMatrix + [outputValue];
      var row: Vector := [1.0];
      var b := 1;
      while b < polynomialDegree + 1
        invariant 1 <= b <= Width(polynomialDegree)
        invariant row == PowerRow(Shift(inputValue, center), b)
      {
        var value := if center.Some? then inputValue - center.value else inputValue;
        row := row + [Pow(value, b)];
        b := b + 1;
      }
      coefficientMatrix := coefficientMatrix + [row];
      a := a + 1;
      assert points[..a][..a - 1] == points[..a - 1];
    }
    assert points[..a] == points;
    if leastSquares {
      valueMatrix := MatVec(TransposeOf(coefficientMatrix, Width(polynomialDegree)), valueMatrix);
      coefficientMatrix := NormalMatrix(coefficientMatrix, Width(polynomialDegree));
    }
    var solution := solve(coefficientMatrix, valueMatrix);
    if solution.Err? {
      return Err(solution.error);
    }
    if !withMatrices {
      return Ok(Coefficients(solution.value));
    }
    return Ok(WithMatrices(solution.value, coefficientMatrix, valueMatrix));
  }

  /** Row a of the coefficient matrix evaluates the polynomial at the (shifted) x of point a. */
  lemma VandermondeEvaluates(points: seq<Point>, degree: int, center: Option<real>, c: Vector)
    requires |c| == Width(degree)
    ensures forall a :: 0 <= a < |points| ==>
      MatVec(Vandermonde(points, degree, center), c)[a] == PolyEval(c, Shift(points[a].x, center))
  {
    forall a | 0 <= a < |points|
      ensures MatVec(Vandermonde(points, degree, center), c)[a] == PolyEval(c, Shift(points[a].x, center))
    {
      DotPowerRow(Shift(points[a].x, center), c);
    }
  }

  /** The guard is the only source of ValueError: the call fails with it exactly when the
      degree is below len(points) − 1 and a line of best fit was not acknowledged. */
  lemma InterpolationValueError(points: seq<Point>, degree: Option<int>, lineOfBestFit: Option<bool>,
                                returnMatrices: Option<bool>, center: Option<real>,
                                solve: (Matrix, Vector) -> Result<Vector>)
    requires IsLinearSolver(solve)
    ensures Interpolation(points, degree, lineOfBestFit, returnMatrices, center, solve) == Err(ValueError)
        <==> DegreeOrDefault(points, degree) < |points| - 1 && !lineOfBestFit.GetOr(false)
    ensures Interpolation(points, degree, lineOfBestFit, returnMatrices, center, solve).Err?
        ==> Interpolation(points, degree, lineOfBestFit, returnMatrices, center, solve).error in {ValueError, LinAlgError}
  {
    var system := System(points, DegreeOrDefault(points, degree), lineOfBestFit.GetOr(false), center);
    assert SolvesCorrectly(solve, system.0, system.1);
  }

  /** A successful call returns coefficients, one per power 0..degree, that solve the system
      it built; the system comes back as well exactly when `return_matricies` is true. With
      least squares that system is square and symmetric. */
  lemma InterpolationSolvesSystem(points: seq<Point>, degree: Option<int>, lineOfBestFit: Option<bool>,
                                  returnMatrices: Option<bool>, center: Option<real>,
                                  solve: (Matrix, Vector) -> Result<Vector>)
    requires IsLinearSolver(solve)
    requires Interpolation(points, degree, lineOfBestFit, returnMatrices, center, solve).Ok?
    ensures var fit := Interpolation(points, degree, lineOfBestFit, returnMatrices, center, solve).value;
            var D := DegreeOrDefault(points, degree);
            var system := System(points, D, lineOfBestFit.GetOr(false), center);
            && |fit.coefficients| == Width(D)
            && IsSquare(system.0) && |system.0| == Width(D)
            && MatVec(system.0, fit.coefficients) == system.1
            && (fit.WithMatrices? <==> returnMatrices == Some(true))
            && (fit.WithMatrices? ==> fit.A == system.0 && fit.b == system.1)
  {
    var D := DegreeOrDefault(points, degree);
    var system := System(points, D, lineOfBestFit.GetOr(false), center);
    assert SolvesCorrectly(solve, system.0, system.1);
    assert |system.0[0]| == Width(D);
  }

  /** The least-squares system's matrix AᵀA is symmetric. */
  lemma NormalSystemSymmetric(points: seq<Point>, degree: int, center: Option<real>)
    ensures var M := System(points, degree, true, center).0;
            |M| == Width(degree) && IsSquare(M)
            && forall i, j :: 0 <= i < Width(degree) && 0 <= j < Width(degree) ==> M[i][j] == M[j][i]
  {
    var A := Vandermonde(points, degree, center);
    forall i, j | 0 <= i < Width(degree) && 0 <= j < Width(degree)
      ensures NormalMatrix(A, Width(degree))[i][j] == NormalMatrix(A, Width(degree))[j][i]
    {
      NormalMatrixSymmetric(A, Width(degree), i, j);
    }
  }

  /** Without least squares a successful fit passes through every point: the polynomial
      with the returned coefficients, evaluated at x_a (shifted by the center), is y_a. */
  lemma ExactFitReproducesPoints(points: seq<Point>, degree: Option<int>, lineOfBestFit: Option<bool>, returnMatrices: Option<bool>,
                                 center: Option<real>, solve: (Matrix, Vector) -> Result<Vector>)
    requires IsLinearSolver(solve) && !lineOfBestFit.GetOr(false)
    requires Interpolation(points, degree, lineOfBestFit, returnMatrices, center, solve).Ok?
    ensures var c := Interpolation(points, degree, lineOfBestFit, returnMatrices, center, solve).value.coefficients;
            forall a :: 0 <= a < |points| ==> PolyEval(c, Shift(points[a].x, center)) == points[a].y
  {
    InterpolationSolvesSystem(points, degree, lineOfBestFit, returnMatrices, center, solve);
    var c := Interpolation(points, degree, lineOfBestFit, returnMatrices, center, solve).value.coefficients;
    VandermondeEvaluates(points, DegreeOrDefault(points, degree), center, c);
  }

  /** Through points with distinct x and the default degree len(points) − 1, the exact fit is
      returned, and it passes through every point. */
  lemma ExactFitSucceeds(points: seq<Point>, degree: Option<int>, lineOfBestFit: Option<bool>, returnMatrices: Option<bool>,
                         center: Option<real>, solve: (Matrix, Vector) -> Result<Vector>)
    requires IsLinearSolver(solve) && !lineOfBestFit.GetOr(false)
    requires |points| > 0 && DegreeOrDefault(points, degree) == |points| - 1
    requires forall i, j :: 0 <= i < j < |points| ==> points[i].x != points[j].x
    ensures Interpolation(points, degree, lineOfBestFit, returnMatrices, center, solve).Ok?
    ensures var c := Interpolation(points, degree, lineOfBestFit, returnMatrices, center, solve).value.coefficients;
            forall a :: 0 <= a < |points| ==> PolyEval(c, Shift(points[a].x, center)) == points[a].y
  {
    var D := DegreeOrDefault(points, degree);
    VandermondeRegular(points, D, center);
    assert SolvesCorrectly(solve, Vandermonde(points, D, center), Values(points));
    ExactFitReproducesPoints(points, degree, lineOfBestFit, returnMatrices, center, solve);
  }

  /** With as many powers as points, and the points' x distinct, the Vandermonde matrix is
      square and sends only the zero vector to zero. */
  lemma VandermondeRegular(points: seq<Point>, D: int, center: Option<real>)
    requires |points| == Width(D)
    requires forall i, j :: 0 <= i < j < |points| ==> points[i].x != points[j].x
    ensures IsSquare(Vandermonde(points, D, center)) && !Singular(Vandermonde(points, D, center))
  {
    var A := Vandermonde(points, D, center);
    var xs := seq(|points|, a requires 0 <= a < |points| => Shift(points[a].x, center));
    VandermondeSquare(points, D, center);
    forall k: Vector | |k| == |A| && MatVec(A, k) == Zeros(|A|)
      ensures k == Zeros(|A|)
    {
      KernelRoots(points, D, center, k, xs);
      RootsZero(k, xs);
    }
  }

  /** A vector the Vandermonde matrix sends to zero has every (shifted) x as a root, and the
      shifted x of distinct x are distinct. */
  lemma KernelRoots(points: seq<Point>, D: int, center: Option<real>, k: Vector, xs: seq<real>)
    requires |k| == Width(D) && MatVec(Vandermonde(points, D, center), k) == Zeros(|points|)
    requires forall i, j :: 0 <= i < j < |points| ==> points[i].x != points[j].x
    requires xs == seq(|points|, a requires 0 <= a < |points| => Shift(points[a].x, center))
    ensures forall a, b :: 0 <= a < b < |xs| ==> xs[a] != xs[b]
    ensures forall a :: 0 <= a < |xs| ==> PolyEval(k, xs[a]) == 0.0
  {
    VandermondeEvaluates(points, D, center, k);
    forall a | 0 <= a < |xs|
      ensures PolyEval(k, xs[a]) == 0.0
    {
      assert MatVec(Vandermonde(points, D, center), k)[a] == 0.0;
    }
  }

  /** The exact fit is the only polynomial of its degree through the points. */
  lemma ExactFitUnique(points: seq<Point>, degree: Option<int>, lineOfBestFit: Option<bool>, returnMatrices: Option<bool>,
                       center: Option<real>, solve: (Matrix, Vector) -> Result<Vector>, d: Vector)
    requires IsLinearSolver(solve) && !lineOfBestFit.GetOr(false)
    requires Interpolation(points, degree, lineOfBestFit, returnMatrices, center, solve).Ok?
    requires |d| == Width(DegreeOrDefault(points, degree))
    requires forall a :: 0 <= a < |points| ==> PolyEval(d, Shift(points[a].x, center)) == points[a].y
    ensures d == Interpolation(points, degree, lineOfBestFit, returnMatrices, center, solve).value.coefficients
  {
    var D := DegreeOrDefault(points, degree);
    var A := Vandermonde(points, D, center);
    var c := Interpolation(points, degree, lineOfBestFit, returnMatrices, center, solve).value.coefficients;
    InterpolationSolvesSystem(points, degree, lineOfBestFit, returnMatrices, center, solve);
    assert SolvesCorrectly(solve, A, Values(points));
    VandermondeEvaluates(points, D, center, d);
    assert MatVec(A, d) == Values(points);
    SolutionUnique(A, c, d);
  }

  /** Centering does not change the fit, exact or least-squares, only the variable it is
      written in: the fit around 0 and the fit around m succeed together, and the centred
      coefficients are the Taylor shift of the uncentred ones, so c_m(x − m) = c_0(x) at every
      x (lines 56-68 build the same rows with x − m in place of x). */
  lemma CenteringInvariance(points: seq<Point>, degree: Option<int>, lineOfBestFit: Option<bool>, returnMatrices: Option<bool>,
                            m: real, solve: (Matrix, Vector) -> Result<Vector>)
    requires IsLinearSolver(solve)
    ensures Interpolation(points, degree, lineOfBestFit, returnMatrices, Some(m), solve).Ok?
        <==> Interpolation(points, degree, lineOfBestFit, returnMatrices, None, solve).Ok?
    ensures Interpolation(points, degree, lineOfBestFit, returnMatrices, None, solve).Ok? ==>
            var c0 := Interpolation(points, degree, lineOfBestFit, returnMatrices, None, solve).value.coefficients;
            var cm := Interpolation(points, degree, lineOfBestFit, returnMatrices, Some(m), solve).value.coefficients;
            cm == TaylorShift(c0, m) && forall x :: PolyEval(cm, x - m) == PolyEval(c0, x)
  {
    if lineOfBestFit.GetOr(false) {
      LeastSquaresSucceedTogether(points, degree, lineOfBestFit, returnMatrices, m, solve);
      if Interpolation(points, degree, lineOfBestFit, returnMatrices, None, solve).Ok? {
        LeastSquaresCenteredFit(points, degree, lineOfBestFit, returnMatrices, m, solve);
      }
    } else {
      CenteringSucceedsTogether(points, degree, lineOfBestFit, returnMatrices, m, solve);
      if Interpolation(points, degree, lineOfBestFit, returnMatrices, None, solve).Ok? {
        CenteredFit(points, degree, lineOfBestFit, returnMatrices, m, solve);
      }
    }
  }

  /** The least-squares fit around m succeeds exactly when the one around 0 does. */
  lemma LeastSquaresSucceedTogether(points: seq<Point>, degree: Option<int>, lineOfBestFit: Option<bool>, returnMatrices: Option<bool>,
                                    m: real, solve: (Matrix, Vector) -> Result<Vector>)
    requires IsLinearSolver(solve) && lineOfBestFit.GetOr(false)
    ensures Interpolation(points, degree, lineOfBestFit, returnMatrices, Some(m), solve).Ok?
        <==> Interpolation(points, degree, lineOfBestFit, returnMatrices, None, solve).Ok?
  {
    var D := DegreeOrDefault(points, degree);
    CenteringKeepsNormalSingular(points, D, m);
    SolvedTogether(solve, System(points, D, true, None).0, System(points, D, true, Some(m)).0,
                   System(points, D, true, None).1, System(points, D, true, Some(m)).1);
  }

  /** Centring keeps the least-squares system's shape, and its matrix singular or not. */
  lemma CenteringKeepsNormalSingular(points: seq<Point>, D: int, m: real)
    ensures |System(points, D, true, None).0| == |System(points, D, true, Some(m)).0| == Width(D)
    ensures |System(points, D, true, None).1| == |System(points, D, true, Some(m)).1| == Width(D)
    ensures IsSquare(System(points, D, true, None).0) && IsSquare(System(points, D, true, Some(m)).0)
    ensures Singular(System(points, D, true, None).0) <==> Singular(System(points, D, true, Some(m)).0)
  {
    NormalSingularMoves(points, D, None, Some(m), m);
    ShiftBack(points, m);
    NormalSingularMoves(points, D, Some(m), None, -m);
  }

  /** Undoing the center: x = (x − m) − (−m). */
  lemma ShiftBack(points: seq<Point>, m: real)
    ensures forall a :: 0 <= a < |points| ==> Shift(points[a].x, None) == Shift(points[a].x, Some(m)) - -m
  {
  }

  /** The Taylor shift of the uncentred least-squares fit solves the centred normal equations,
      whose solution is unique, so it is the centred fit. */
  lemma LeastSquaresCenteredFit(points: seq<Point>, degree: Option<int>, lineOfBestFit: Option<bool>, returnMatrices: Option<bool>,
                                m: real, solve: (Matrix, Vector) -> Result<Vector>)
    requires IsLinearSolver(solve) && lineOfBestFit.GetOr(false)
    requires Interpolation(points, degree, lineOfBestFit, returnMatrices, None, solve).Ok?
    requires Interpolation(points, degree, lineOfBestFit, returnMatrices, Some(m), solve).Ok?
    ensures var c0 := Interpolation(points, degree, lineOfBestFit, returnMatrices, None, solve).value.coefficients;
            var cm := Interpolation(points, degree, lineOfBestFit, returnMatrices, Some(m), solve).value.coefficients;
            cm == TaylorShift(c0, m) && forall x :: PolyEval(cm, x - m) == PolyEval(c0, x)
  {
    var D := DegreeOrDefault(points, degree);
    var c0 := Interpolation(points, degree, lineOfBestFit, returnMatrices, None, solve).value.coefficients;
    var cm := Interpolation(points, degree, lineOfBestFit, returnMatrices, Some(m), solve).value.coefficients;
    var Sm := System(points, D, true, Some(m));
    InterpolationSolvesSystem(points, degree, lineOfBestFit, returnMatrices, None, solve);
    InterpolationSolvesSystem(points, degree, lineOfBestFit, returnMatrices, Some(m), solve);
    NormalShiftSolves(points, D, m, c0);
    assert SolvesCorrectly(solve, Sm.0, Sm.1);
    SolutionUnique(Sm.0, cm, TaylorShift(c0, m));
    TaylorShiftEverywhere(c0, m);
  }

  /** The exact fit around m succeeds exactly when the fit around 0 does. */
  lemma CenteringSucceedsTogether(points: seq<Point>, degree: Option<int>, lineOfBestFit: Option<bool>, returnMatrices: Option<bool>,
                                  m: real, solve: (Matrix, Vector) -> Result<Vector>)
    requires IsLinearSolver(solve) && !lineOfBestFit.GetOr(false)
    ensures Interpolation(points, degree, lineOfBestFit, returnMatrices, Some(m), solve).Ok?
        <==> Interpolation(points, degree, lineOfBestFit, returnMatrices, None, solve).Ok?
  {
    var D := DegreeOrDefault(points, degree);
    CenteringKeepsSingular(points, D, m);
    SolvedTogether(solve, Vandermonde(points, D, None), Vandermonde(points, D, Some(m)), Values(points), Values(points));
  }

  /** Centring keeps the Vandermonde matrix square, and singular or not. */
  lemma CenteringKeepsSingular(points: seq<Point>, D: int, m: real)
    ensures |Vandermonde(points, D, None)| == |Vandermonde(points, D, Some(m))|
    ensures IsSquare(Vandermonde(points, D, None)) <==> IsSquare(Vandermonde(points, D, Some(m)))
    ensures IsSquare(Vandermonde(points, D, None)) ==>
              (Singular(Vandermonde(points, D, None)) <==> Singular(Vandermonde(points, D, Some(m))))
  {
    VandermondeSquare(points, D, None);
    VandermondeSquare(points, D, Some(m));
    if IsSquare(Vandermonde(points, D, None)) {
      SingularMoves(points, D, None, Some(m), m);
      SingularMoves(points, D, Some(m), None, -m);
    }
  }

  /** A correct solver succeeds on two systems together when their matrices are alike in
      size, squareness and singularity, and their right-hand sides in length. */
  lemma SolvedTogether(solve: (Matrix, Vector) -> Result<Vector>, A: Matrix, B: Matrix, bA: Vector, bB: Vector)
    requires IsLinearSolver(solve)
    requires |A| == |B| && |bA| == |bB| && (IsSquare(A) <==> IsSquare(B)) && (IsSquare(A) ==> (Singular(A) <==> Singular(B)))
    ensures solve(A, bA).Ok? <==> solve(B, bB).Ok?
  {
    assert SolvesCorrectly(solve, A, bA);
    assert SolvesCorrectly(solve, B, bB);
  }

  /** The Vandermonde matrix is square when there are as many points as powers, or none. */
  lemma VandermondeSquare(points: seq<Point>, D: int, center: Option<real>)
    ensures IsSquare(Vandermonde(points, D, center)) <==> |points| == 0 || |points| == Width(D)
  {
    if |points| > 0 {
      assert |Vandermonde(points, D, center)[0]| == Width(D);
    }
  }

  /** The Taylor shift of the uncentred fit passes through the centred points, so by
      uniqueness it is the centred fit. */
  lemma CenteredFit(points: seq<Point>, degree: Option<int>, lineOfBestFit: Option<bool>, returnMatrices: Option<bool>,
                    m: real, solve: (Matrix, Vector) -> Result<Vector>)
    requires IsLinearSolver(solve) && !lineOfBestFit.GetOr(false)
    requires Interpolation(points, degree, lineOfBestFit, returnMatrices, None, solve).Ok?
    requires Interpolation(points, degree, lineOfBestFit, returnMatrices, Some(m), solve).Ok?
    ensures var c0 := Interpolation(points, degree, lineOfBestFit, returnMatrices, None, solve).value.coefficients;
            var cm := Interpolation(points, degree, lineOfBestFit, returnMatrices, Some(m), solve).value.coefficients;
            cm == TaylorShift(c0, m) && forall x :: PolyEval(cm, x - m) == PolyEval(c0, x)
  {
    var c0 := Interpolation(points, degree, lineOfBestFit, returnMatrices, None, solve).value.coefficients;
    InterpolationSolvesSystem(points, degree, lineOfBestFit, returnMatrices, None, solve);
    ExactFitReproducesPoints(points, degree, lineOfBestFit, returnMatrices, None, solve);
    ShiftedFitPassesThrough(points, c0, m);
    ExactFitUnique(points, degree, lineOfBestFit, returnMatrices, Some(m), solve, TaylorShift(c0, m));
    TaylorShiftEverywhere(c0, m);
  }

  /** Coefficients through the points become, shifted by m, coefficients through the points
      centred on m. */
  lemma ShiftedFitPassesThrough(points: seq<Point>, c: Vector, m: real)
    requires forall a :: 0 <= a < |points| ==> PolyEval(c, Shift(points[a].x, None)) == points[a].y
    ensures forall a :: 0 <= a < |points| ==> PolyEval(TaylorShift(c, m), Shift(points[a].x, Some(m))) == points[a].y
  {
    forall a | 0 <= a < |points|
      ensures PolyEval(TaylorShift(c, m), Shift(points[a].x, Some(m))) == points[a].y
    {
      TaylorShiftEval(c, m, points[a].x);
    }
  }

  /** A non-zero vector the Vandermonde matrix at one center sends to zero gives, shifted by
      the difference s of the centers, one the matrix at the other center sends to zero. */
  lemma KernelMoves(points: seq<Point>, D: int, c1: Option<real>, c2: Option<real>, s: real, k: Vector)
    requires |k| == Width(D)
    requires forall a :: 0 <= a < |points| ==> Shift(points[a].x, c2) == Shift(points[a].x, c1) - s
    requires MatVec(Vandermonde(points, D, c1), k) == Zeros(|points|)
    ensures MatVec(Vandermonde(points, D, c2), TaylorShift(k, s)) == Zeros(|points|)
    ensures k != Zeros(|k|) ==> TaylorShift(k, s) != Zeros(|k|)
  {
    var d := TaylorShift(k, s);
    VandermondeEvaluates(points, D, c1, k);
    VandermondeEvaluates(points, D, c2, d);
    forall a | 0 <= a < |points|
      ensures MatVec(Vandermonde(points, D, c2), d)[a] == 0.0
    {
      TaylorShiftEval(k, s, Shift(points[a].x, c1));
      assert MatVec(Vandermonde(points, D, c1), k)[a] == 0.0;
    }
    if d == Zeros(|k|) {
      TaylorShiftZero(k, s);
    }
  }

  /** Moving the center keeps a square Vandermonde matrix singular. */
  lemma SingularMoves(points: seq<Point>, D: int, c1: Option<real>, c2: Option<real>, s: real)
    requires IsSquare(Vandermonde(points, D, c1))
    requires forall a :: 0 <= a < |points| ==> Shift(points[a].x, c2) == Shift(points[a].x, c1) - s
    ensures IsSquare(Vandermonde(points, D, c2))
    ensures Singular(Vandermonde(points, D, c1)) ==> Singular(Vandermonde(points, D, c2))
  {
    var A1 := Vandermonde(points, D, c1);
    var A2 := Vandermonde(points, D, c2);
    VandermondeSquare(points, D, c1);
    VandermondeSquare(points, D, c2);
    if Singular(A1) {
      var k :| |k| == |A1| && k != Zeros(|A1|) && MatVec(A1, k) == Zeros(|A1|);
      KernelMoves(points, D, c1, c2, s, k);
      assert |TaylorShift(k, s)| == |A2|;
    }
  }

  /** Moving the center by s: the Vandermonde matrix at the new center applied to the shifted
      coefficients gives what the matrix at the old center gives on the original ones. */
  lemma VandermondeShifted(points: seq<Point>, D: int, c1: Option<real>, c2: Option<real>, s: real, k: Vector, d: Vector)
    requires |k| == Width(D) && d == TaylorShift(k, s)
    requires forall a :: 0 <= a < |points| ==> Shift(points[a].x, c2) == Shift(points[a].x, c1) - s
    ensures MatVec(Vandermonde(points, D, c2), d) == MatVec(Vandermonde(points, D, c1), k)
  {
    VandermondeEvaluates(points, D, c1, k);
    VandermondeEvaluates(points, D, c2, d);
    forall a | 0 <= a < |points|
      ensures PolyEval(d, Shift(points[a].x, c2)) == PolyEval(k, Shift(points[a].x, c1))
    {
      TaylorShiftAt(k, d, s, Shift(points[a].x, c1), Shift(points[a].x, c2));
    }
  }

  /** A vector orthogonal to every column of the Vandermonde matrix at one center is
      orthogonal to every column at the other: both matrices have the same column space. */
  lemma OrthogonalMoves(points: seq<Point>, D: int, c1: Option<real>, c2: Option<real>, s: real, r: Vector)
    requires |r| == |points|
    requires forall a :: 0 <= a < |points| ==> Shift(points[a].x, c1) == Shift(points[a].x, c2) - s
    requires MatVec(TransposeOf(Vandermonde(points, D, c1), Width(D)), r) == Zeros(Width(D))
    ensures MatVec(TransposeOf(Vandermonde(points, D, c2), Width(D)), r) == Zeros(Width(D))
  {
    var V1, V2 := Vandermonde(points, D, c1), Vandermonde(points, D, c2);
    var u := MatVec(TransposeOf(V2, Width(D)), r);
    var w := TaylorShift(u, s);
    VandermondeShifted(points, D, c2, c1, s, u, w);
    SameImageOrthogonal(V1, V2, Width(D), u, w, r);
  }

  /** Moving the center keeps the least-squares matrix singular. */
  lemma NormalSingularMoves(points: seq<Point>, D: int, c1: Option<real>, c2: Option<real>, s: real)
    requires forall a :: 0 <= a < |points| ==> Shift(points[a].x, c2) == Shift(points[a].x, c1) - s
    ensures Singular(System(points, D, true, c1).0) ==> Singular(System(points, D, true, c2).0)
  {
    var V1, V2 := Vandermonde(points, D, c1), Vandermonde(points, D, c2);
    var N1, N2 := NormalMatrix(V1, Width(D)), NormalMatrix(V2, Width(D));
    if Singular(N1) {
      var k :| |k| == |N1| && k != Zeros(|N1|) && MatVec(N1, k) == Zeros(|N1|);
      NormalKernel(V1, Width(D), k);
      KernelMoves(points, D, c1, c2, s, k);
      NormalKernel(V2, Width(D), TaylorShift(k, s));
      assert |TaylorShift(k, s)| == |N2|;
    }
  }

  /** The Taylor shift of a solution of the uncentred normal equations solves the centred
      ones: its residual is the same vector, orthogonal to the centred columns too. */
  lemma NormalShiftSolves(points: seq<Point>, D: int, m: real, c: Vector)
    requires |c| == Width(D)
    requires MatVec(System(points, D, true, None).0, c) == System(points, D, true, None).1
    ensures MatVec(System(points, D, true, Some(m)).0, TaylorShift(c, m)) == System(points, D, true, Some(m)).1
  {
    var V0, Vm := Vandermonde(points, D, None), Vandermonde(points, D, Some(m));
    var b := Values(points);
    NormalEquationsResidual(V0, Width(D), b, c);
    OrthogonalMoves(points, D, None, Some(m), -m, Sub(MatVec(V0, c), b));
    VandermondeShifted(points, D, None, Some(m), m, c, TaylorShift(c, m));
    NormalEquationsResidual(Vm, Width(D), b, TaylorShift(c, m));
  }

  /** A degree above len(points) − 1 without least squares gives a wide system, which the
      solver rejects. */
  lemma OverDegreeRejected(points: seq<Point>, degree: int, lineOfBestFit: Option<bool>, returnMatrices: Option<bool>,
                           center: Option<real>, solve: (Matrix, Vector) -> Result<Vector>)
    requires IsLinearSolver(solve) && !lineOfBestFit.GetOr(false)
    requires degree > |points| - 1
    ensures Interpolation(points, Some(degree), lineOfBestFit, returnMatrices, center, solve) == Err(LinAlgError)
  {
    var A := Vandermonde(points, degree, center);
    assert SolvesCorrectly(solve, A, Values(points));
    if |A| > 0 {
      assert |A[0]| == degree + 1 != |A|;
    }
  }

  /** Two points with the same x and different y cannot both lie on a polynomial, so an
      exact fit through them fails. */
  lemma ConflictingPointsRejected(points: seq<Point>, degree: Option<int>, lineOfBestFit: Option<bool>, returnMatrices: Option<bool>,
                                  center: Option<real>, solve: (Matrix, Vector) -> Result<Vector>, i: nat, j: nat)
    requires IsLinearSolver(solve) && !lineOfBestFit.GetOr(false)
    requires i < |points| && j < |points| && points[i].x == points[j].x && points[i].y != points[j].y
    ensures Interpolation(points, degree, lineOfBestFit, returnMatrices, center, solve).Err?
  {
    if Interpolation(points, degree, lineOfBestFit, returnMatrices, center, solve).Ok? {
      ExactFitReproducesPoints(points, degree, lineOfBestFit, returnMatrices, center, solve);
    }
  }

  /** The residuals p(x_a) − y_a of the polynomial with coefficients c at every point. */
  function Residuals(points: seq<Point>, center: Option<real>, c: Vector): (e: Vector)
    ensures |e| == |points|
  {
    seq(|points|, a requires 0 <= a < |points| => PolyEval(c, Shift(points[a].x, center)) - points[a].y)
  }

  /** With least squares the returned coefficients minimise the sum of squared residuals
      Σₐ (p(x_a) − y_a)² over every polynomial of the same degree. */
  lemma LeastSquaresMinimises(points: seq<Point>, degree: Option<int>, returnMatrices: Option<bool>,
                              center: Option<real>, solve: (Matrix, Vector) -> Result<Vector>, d: Vector)
    requires IsLinearSolver(solve)
    requires Interpolation(points, degree, Some(true), returnMatrices, center, solve).Ok?
    requires |d| == Width(DegreeOrDefault(points, degree))
    ensures var c := Interpolation(points, degree, Some(true), returnMatrices, center, solve).value.coefficients;
            SqNorm(Residuals(points, center, c)) <= SqNorm(Residuals(points, center, d))
  {
    var D := DegreeOrDefault(points, degree);
    var A := Vandermonde(points, D, center);
    var c := Interpolation(points, degree, Some(true), returnMatrices, center, solve).value.coefficients;
    InterpolationSolvesSystem(points, degree, Some(true), returnMatrices, center, solve);
    NormalEquationsMinimise(A, Width(D), Values(points), c, d);
    ResidualsOfSystem(points, D, center, c);
    ResidualsOfSystem(points, D, center, d);
  }

  /** The residuals are what the Vandermonde system leaves over. */
  lemma ResidualsOfSystem(points: seq<Point>, D: int, center: Option<real>, c: Vector)
    requires |c| == Width(D)
    ensures Sub(MatVec(Vandermonde(points, D, center), c), Values(points)) == Residuals(points, center, c)
  {
    VandermondeEvaluates(points, D, center, c);
  }

  /** `interpolation_coefficients_to_function_template(coefficients, x, center)` (lines 85-109)
      evaluated at the real x: the triple (x, Σᵢ cᵢ·(x − center)ⁱ, 0), accumulated term by term. */
  method FunctionTemplate(coefficients: Vector, x: real, center: Option<real>)
    returns (variable: real, value: real, zero: int)
    ensures variable == x && zero == 0
    ensures value == PolyEval(coefficients, Shift(x, center))
  {
    value := 0.0;
    var i := 0;
    while i < |coefficients|
      invariant 0 <= i <= |coefficients|
      invariant value == PolyEval(coefficients[..i], Shift(x, center))
    {
      var expression := if center.Some? then x - center.value else x;
      value := value + coefficients[i] * Pow(expression, i);
      i := i + 1;
      assert coefficients[..i][..i - 1] == coefficients[..i - 1];
    }
    assert coefficients[..i] == coefficients;
    return x, value, 0;
  }

  // ----- linear splines (lines 112-127) -----

  /** |range(n − 1)|: the number of neighbouring pairs among n points. */
  function PairCount(n: nat): nat {
    if n >= 1 then n - 1 else 0
  }

  /** The coefficient lists of the first k pairs, or the first failure among them. */
  function LinearSplineUpTo(points: seq<Point>, k: nat, solve: (Matrix, Vector) -> Result<Vector>): Result<seq<Vector>>
    requires k <= PairCount(|points|)
  {
    if k == 0 then
      Ok([])
    else
      var previous :- LinearSplineUpTo(points, k - 1, solve);
      var fit :- Interpolation(points[k - 1..k + 1], None, None, None, None, solve);
      Ok(previous + [fit.coefficients])
  }

  function LinearSpline(points: seq<Point>, solve: (Matrix, Vector) -> Result<Vector>): Result<seq<Vector>> {
    LinearSplineUpTo(points, PairCount(|points|), solve)
  }

  /** `linear_spline_interpolation(points)`: `interpolate_over` with its defaults on every
      pair of neighbours, in order; the first failure propagates. */
  method LinearSplineInterpolation(points: seq<Point>, solve: (Matrix, Vector) -> Result<Vector>)
    returns (r: Result<seq<Vector>>)
    ensures r == LinearSpline(points, solve)
  {
    var allCoefficients: seq<Vector> := [];
    var i := 0;
    while i < |points| - 1
      invariant 0 <= i <= PairCount(|points|)
      invariant LinearSplineUpTo(points, i, solve) == Ok(allCoefficients)
    {
      var fit := InterpolateOver(points[i..i + 2], None, None, None, None, solve);
      assert points[i..i + 2] == points[(i + 1) - 1..(i + 1) + 1];
      if fit.Err? {
        assert LinearSplineUpTo(points, i + 1, solve) == Err(fit.error);
        LinearSplineErrorPersists(points, i + 1, PairCount(|points|), solve);
        return Err(fit.error);
      }
      allCoefficients := allCoefficients + [fit.value.coefficients];
      i := i + 1;
    }
    return Ok(allCoefficients);
  }

  /** Once a pair fails, the failure is the result of every longer prefix. */
  lemma {:induction false} LinearSplineErrorPersists(points: seq<Point>, k: nat, m: nat, solve: (Matrix, Vector) -> Result<Vector>)
    requires k <= m <= PairCount(|points|) && LinearSplineUpTo(points, k, solve).Err?
    ensures LinearSplineUpTo(points, m, solve) == LinearSplineUpTo(points, k, solve)
    decreases m
  {
    if m > k {
      LinearSplineErrorPersists(points, k, m - 1, solve);
    }
  }

  /** The system of a line through two points: rows [1, x] for each. */
  lemma LineSystem(p: Point, q: Point)
    ensures Vandermonde([p, q], 1, None) == [[1.0, p.x], [1.0, q.x]]
  {
    var A := Vandermonde([p, q], 1, None);
    assert Pow(p.x, 1) == p.x && Pow(q.x, 1) == q.x;
    assert A[0] == PowerRow(p.x, 2) == [1.0, p.x];
    assert A[1] == PowerRow(q.x, 2) == [1.0, q.x];
  }

  /** The line system is singular exactly when the two x values coincide. */
  lemma LineSystemSingular(a: real, b: real)
    ensures Singular([[1.0, a], [1.0, b]]) <==> a == b
  {
    if a == b {
      LineSystemSingularIfEqual(a);
    } else {
      LineSystemRegularIfDistinct(a, b);
    }
  }

  lemma LineSystemSingularIfEqual(a: real)
    ensures Singular([[1.0, a], [1.0, a]])
  {
    var A := [[1.0, a], [1.0, a]];
    var k := [-a, 1.0];
    assert k != Zeros(2) by { assert k[1] != Zeros(2)[1]; }
    Dot2(A[0], k);
    assert MatVec(A, k) == Zeros(2);
  }

  lemma LineSystemRegularIfDistinct(a: real, b: real)
    requires a != b
    ensures !Singular([[1.0, a], [1.0, b]])
  {
    var A := [[1.0, a], [1.0, b]];
    forall k: Vector | |k| == 2 && MatVec(A, k) == Zeros(2)
      ensures k == Zeros(2)
    {
      Dot2(A[0], k);
      Dot2(A[1], k);
      assert MatVec(A, k)[0] == 0.0 && MatVec(A, k)[1] == 0.0;
      LineKernel(a, b, k[0], k[1]);
      assert k[0] == Zeros(2)[0] && k[1] == Zeros(2)[1];
    }
  }

  /** Two lines through the origin with distinct slopes meet only at the origin. */
  lemma LineKernel(a: real, b: real, k0: real, k1: real)
    requires a != b && 1.0 * k0 + a * k1 == 0.0 && 1.0 * k0 + b * k1 == 0.0
    ensures k0 == 0.0 && k1 == 0.0
  {
    assert (a - b) * k1 == a * k1 - b * k1 == 0.0;
    ProductZero(a - b, k1);
  }

  lemma ProductZero(a: real, b: real)
    requires a != 0.0 && a * b == 0.0
    ensures b == 0.0
  {
    assert b == (a * b) / a;
  }

  /** The fit through one pair, with the defaults `linear_spline_interpolation` uses, is
      found exactly when the two x values differ. */
  lemma PairFitSucceeds(p: Point, q: Point, solve: (Matrix, Vector) -> Result<Vector>)
    requires IsLinearSolver(solve)
    ensures Interpolation([p, q], None, None, None, None, solve).Ok? <==> p.x != q.x
    ensures Interpolation([p, q], None, None, None, None, solve).Err?
        ==> Interpolation([p, q], None, None, None, None, solve).error == LinAlgError
  {
    LineSystem(p, q);
    LineSystemSingular(p.x, q.x);
    assert SolvesCorrectly(solve, Vandermonde([p, q], 1, None), Values([p, q]));
  }

  /** A successful pair fit is a line through both points. */
  lemma PairFitPassesThrough(p: Point, q: Point, solve: (Matrix, Vector) -> Result<Vector>)
    requires IsLinearSolver(solve)
    requires Interpolation([p, q], None, None, None, None, solve).Ok?
    ensures var c := Interpolation([p, q], None, None, None, None, solve).value.coefficients;
            |c| == 2 && PolyEval(c, p.x) == p.y && PolyEval(c, q.x) == q.y
  {
    InterpolationSolvesSystem([p, q], None, None, None, None, solve);
    ExactFitReproducesPoints([p, q], None, None, None, None, solve);
    var c := Interpolation([p, q], None, None, None, None, solve).value.coefficients;
    assert PolyEval(c, Shift([p, q][0].x, None)) == [p, q][0].y;
    assert PolyEval(c, Shift([p, q][1].x, None)) == [p, q][1].y;
  }

  /** The linear spline succeeds exactly when neighbouring points have distinct x; it then
      holds one line per pair, and line i passes through points i and i + 1. */
  lemma {:induction false} LinearSplineUpToPieces(points: seq<Point>, k: nat, solve: (Matrix, Vector) -> Result<Vector>)
    requires IsLinearSolver(solve) && k <= PairCount(|points|)
    ensures LinearSplineUpTo(points, k, solve).Ok? <==> forall i :: 0 <= i < k ==> points[i].x != points[i + 1].x
    ensures LinearSplineUpTo(points, k, solve).Err? ==> LinearSplineUpTo(points, k, solve).error == LinAlgError
    ensures LinearSplineUpTo(points, k, solve).Ok? ==>
      var lines := LinearSplineUpTo(points, k, solve).value;
      && |lines| == k
      && forall i :: 0 <= i < k ==>
           (|lines[i]| == 2 && PolyEval(lines[i], points[i].x) == points[i].y
            && PolyEval(lines[i], points[i + 1].x) == points[i + 1].y)
  {
    if k > 0 {
      LinearSplineUpToPieces(points, k - 1, solve);
      assert points[k - 1..k + 1] == [points[k - 1], points[k]];
      PairFitSucceeds(points[k - 1], points[k], solve);
      if LinearSplineUpTo(points, k, solve).Ok? {
        PairFitPassesThrough(points[k - 1], points[k], solve);
      }
    }
  }

  lemma LinearSplineProperties(points: seq<Point>, solve: (Matrix, Vector) -> Result<Vector>)
    requires IsLinearSolver(solve)
    ensures LinearSpline(points, solve).Ok? <==> forall i :: 0 <= i < |points| - 1 ==> points[i].x != points[i + 1].x
    ensures LinearSpline(points, solve).Err? ==> LinearSpline(points, solve).error == LinAlgError
    ensures LinearSpline(points, solve).Ok? ==>
      var lines := LinearSpline(points, solve).value;
      && |lines| == PairCount(|points|)
      && forall i :: 0 <= i < |lines| ==>
           (|lines[i]| == 2 && PolyEval(lines[i], points[i].x) == points[i].y && PolyEval(lines[i], points[i + 1].x) == points[i + 1].y)
  {
    LinearSplineUpToPieces(points, PairCount(|points|), solve);
  }

  // ----- natural cubic splines (lines 130-229) -----

  /** [x³, x², x, 1]: a cubic's coefficients, highest power first, at x. */
  function CubicRow(x: real): seq<real> {
    [Pow(x, 3), Pow(x, 2), x, 1.0]
  }

  /** The row of first derivatives at x, highest power first: [3x², 2x, 1, 0]. */
  function SlopeRow(x: real): seq<real> {
    [3.0 * Pow(x, 2), 2.0 * x, 1.0, 0.0]
  }

  /** The row of second derivatives at x, highest power first: [6x, 2, 0, 0]. */
  function CurvatureRow(x: real): seq<real> {
    [6.0 * x, 2.0, 0.0, 0.0]
  }

  /** The 8×8 matrix of lines 148-193. The unknowns are both cubics' coefficients, highest
      power first: rows 0-3 put the first cubic through points 0 and 1 and the second through
      points 1 and 2, rows 4-5 equate slopes and curvatures at the middle x, rows 6-7 make
      the curvature vanish at both ends. */
  function SplineMatrix(x0: real, x1: real, x2: real): (M: Matrix)
    ensures |M| == 8
  {
    seq(8, i requires 0 <= i < 8 => SplineRow(x0, x1, x2, i))
  }

  /** Row i of the spline system. */
  function SplineRow(x0: real, x1: real, x2: real, i: nat): seq<real>
    requires i < 8
  {
    match i
    case 0 => CubicRow(x0) + Zeros(4)
    case 1 => CubicRow(x1) + Zeros(4)
    case 2 => Zeros(4) + CubicRow(x1)
    case 3 => Zeros(4) + CubicRow(x2)
    case 4 => SlopeRow(x1) + Scale(-1.0, SlopeRow(x1))
    case 5 => CurvatureRow(x1) + Scale(-1.0, CurvatureRow(x1))
    case 6 => [6.0 * x0, 2.0] + Zeros(6)
    case 7 => Zeros(4) + [6.0 * x2, 2.0] + Zeros(2)
  }

  /** The right-hand side of lines 148-193: the y values, then zeros. */
  function SplineValues(y0: real, y1: real, y2: real): Vector {
    [y0, y1, y1, y2, 0.0, 0.0, 0.0, 0.0]
  }

  function Slope(c: seq<real>, x: real): real {
    PolyEval(Derivative(c), x)
  }

  function Curvature(c: seq<real>, x: real): real {
    PolyEval(Derivative(Derivative(c)), x)
  }

  /** The two cubics (lowest power first) form a natural cubic spline through the three
      points: each passes through its two points, slopes and curvatures agree at the middle
      point, and the curvature vanishes at both ends. */
  predicate NaturalSpline(q1: seq<real>, q2: seq<real>, p0: Point, p1: Point, p2: Point) {
    && PolyEval(q1, p0.x) == p0.y && PolyEval(q1, p1.x) == p1.y
    && PolyEval(q2, p1.x) == p1.y && PolyEval(q2, p2.x) == p2.y
    && Slope(q1, p1.x) == Slope(q2, p1.x)
    && Curvature(q1, p1.x) == Curvature(q2, p1.x)
    && Curvature(q1, p0.x) == 0.0 && Curvature(q2, p2.x) == 0.0
  }

  /** Python's slices `s[:4]` and `s[4:]`, which clip at the end of the list. */
  function Take(s: seq<real>, n: nat): seq<real> {
    if n <= |s| then s[..n] else s
  }

  function Drop(s: seq<real>, n: nat): seq<real> {
    if n <= |s| then s[n..] else []
  }

  /** `three_point_cubic_spline_interpolation(points)` as a value: ValueError unless there are
      exactly three points, else the solution of the 8×8 system split into its two halves,
      each reversed to lowest power first. */
  function ThreePointSpline(points: seq<Point>, solve: (Matrix, Vector) -> Result<Vector>): Result<seq<Vector>> {
    if |points| != 3 then
      Err(ValueError)
    else
      var solution :- solve(SplineMatrix(points[0].x, points[1].x, points[2].x),
                            SplineValues(points[0].y, points[1].y, points[2].y));
      Ok([Reverse(Take(solution, 4)), Reverse(Drop(solution, 4))])
  }

  /** `three_point_cubic_spline_interpolation`: the rows are appended one by one, the two
      point rows of each pair of neighbours padded with zeros after (first pair) or before
      (second pair), then the derivative rows; the solution halves are reversed. */
  method ThreePointCubicSpline(points: seq<Point>, solve: (Matrix, Vector) -> Result<Vector>)
    returns (r: Result<seq<Vector>>)
    ensures r == WindowSolver(solve)(points)
  {
    if |points| != 3 {
      return Err(ValueError);
    }
    var M := SplineMatrix(points[0].x, points[1].x, points[2].x);
    var coefficientMatrix: Matrix := [];
    var valueMatrix: Vector := [];
    for i := 0 to 2
      invariant coefficientMatrix == M[..2 * i]
      invariant valueMatrix == SplineValues(points[0].y, points[1].y, points[2].y)[..2 * i]
    {
      var relevant := points[i..i + 2];
      for j := 0 to 2
        invariant coefficientMatrix == M[..2 * i + j]
      {
        var row := CubicRow(relevant[j].x);
        if i == 0 {
          row := row + Zeros(4);
        } else {
          row := Zeros(4) + row;
        }
        coefficientMatrix := coefficientMatrix + [row];
      }
      valueMatrix := valueMatrix + [relevant[0].y, relevant[1].y];
    }
    var middleX := points[1].x;
    coefficientMatrix := coefficientMatrix + [SlopeRow(middleX) + Scale(-1.0, SlopeRow(middleX))];
    valueMatrix := valueMatrix + [0.0];
    coefficientMatrix := coefficientMatrix + [CurvatureRow(middleX) + Scale(-1.0, CurvatureRow(middleX))];
    valueMatrix := valueMatrix + [0.0];
    coefficientMatrix := coefficientMatrix + [[6.0 * points[0].x, 2.0] + Zeros(6)];
    coefficientMatrix := coefficientMatrix + [Zeros(4) + [6.0 * points[2].x, 2.0] + Zeros(2)];
    valueMatrix := valueMatrix + [0.0, 0.0];
    assert coefficientMatrix == M;
    assert valueMatrix == SplineValues(points[0].y, points[1].y, points[2].y);
    var solution := solve(coefficientMatrix, valueMatrix);
    if solution.Err? {
      return Err(solution.error);
    }
    var s := solution.value;
    var first := if 4 <= |s| then s[..4] else s;
    var second := if 4 <= |s| then s[4..] else [];
    return Ok([Reverse(first), Reverse(second)]);
  }

  /** The point row at x, dotted with a cubic's coefficients written highest power first,
      evaluates that cubic at x. */
  lemma CubicRowEval(x: real, w: Vector)
    requires |w| == 4
    ensures Dot(CubicRow(x), w) == PolyEval(Reverse(w), x)
  {
    Dot4(CubicRow(x), w);
    CubicEval(Reverse(w), x);
  }

  lemma SlopeRowEval(x: real, w: Vector)
    requires |w| == 4
    ensures Dot(SlopeRow(x), w) == Slope(Reverse(w), x)
  {
    SlopeRowDot(x, w);
    SlopeOfReverse(x, w);
  }

  lemma SlopeRowDot(x: real, w: Vector)
    requires |w| == 4
    ensures Dot(SlopeRow(x), w) == w[2] + 2.0 * (x * w[1]) + 3.0 * (Pow(x, 2) * w[0])
  {
    Dot4(SlopeRow(x), w);
  }

  lemma SlopeOfReverse(x: real, w: Vector)
    requires |w| == 4
    ensures Slope(Reverse(w), x) == w[2] + 2.0 * (x * w[1]) + 3.0 * (Pow(x, 2) * w[0])
  {
    var r := Reverse(w);
    assert r[1] == w[2] && r[2] == w[1] && r[3] == w[0];
    CubicSlope(r, x);
  }

  lemma CurvatureRowEval(x: real, w: Vector)
    requires |w| == 4
    ensures Dot(CurvatureRow(x), w) == Curvature(Reverse(w), x)
  {
    CurvatureRowDot(x, w);
    CurvatureOfReverse(x, w);
  }

  lemma CurvatureRowDot(x: real, w: Vector)
    requires |w| == 4
    ensures Dot(CurvatureRow(x), w) == 2.0 * w[1] + 6.0 * (x * w[0])
  {
    Dot4(CurvatureRow(x), w);
  }

  lemma CurvatureOfReverse(x: real, w: Vector)
    requires |w| == 4
    ensures Curvature(Reverse(w), x) == 2.0 * w[1] + 6.0 * (x * w[0])
  {
    var r := Reverse(w);
    assert r[2] == w[1] && r[3] == w[0];
    CubicCurvature(r, x);
  }

  lemma {:induction false} NegatedRow(u: Vector, w: Vector)
    requires |u| == |w|
    ensures Dot(Scale(-1.0, u), w) == -Dot(u, w)
    decreases |u|
  {
    if |u| > 0 {
      var n := |u| - 1;
      assert Scale(-1.0, u)[..n] == Scale(-1.0, u[..n]);
      NegatedRow(u[..n], w[..n]);
    }
  }

  lemma ZeroRow(w: Vector)
    ensures Dot(Zeros(|w|), w) == 0.0
  {
    DotZeros(w);
    DotSymmetric(w, Zeros(|w|));
  }

  /** Row by row, the 8×8 system applied to a candidate solution s: the halves of s, reversed,
      are the two cubics q1 and q2. */
  lemma SplineRows(x0: real, x1: real, x2: real, s: Vector)
    requires |s| == 8
    ensures var M, q1, q2 := SplineMatrix(x0, x1, x2), Reverse(s[..4]), Reverse(s[4..]);
            && MatVec(M, s)[0] == PolyEval(q1, x0)
            && MatVec(M, s)[1] == PolyEval(q1, x1)
            && MatVec(M, s)[2] == PolyEval(q2, x1)
            && MatVec(M, s)[3] == PolyEval(q2, x2)
            && MatVec(M, s)[4] == Slope(q1, x1) - Slope(q2, x1)
            && MatVec(M, s)[5] == Curvature(q1, x1) - Curvature(q2, x1)
            && MatVec(M, s)[6] == Curvature(q1, x0)
            && MatVec(M, s)[7] == Curvature(q2, x2)
  {
    SplineRowsThrough(x0, x1, x2, s);
    SplineRowsJoin(x0, x1, x2, s);
    SplineRowsEnds(x0, x1, x2, s);
  }

  /** Rows 0-3 of SplineRows: the values at the points. */
  lemma SplineRowsThrough(x0: real, x1: real, x2: real, s: Vector)
    requires |s| == 8
    ensures var M, q1, q2 := SplineMatrix(x0, x1, x2), Reverse(s[..4]), Reverse(s[4..]);
            && MatVec(M, s)[0] == PolyEval(q1, x0)
            && MatVec(M, s)[1] == PolyEval(q1, x1)
            && MatVec(M, s)[2] == PolyEval(q2, x1)
            && MatVec(M, s)[3] == PolyEval(q2, x2)
  {
    var w1, w2 := s[..4], s[4..];
    assert s == w1 + w2;
    DotAppend(CubicRow(x0), Zeros(4), s);
    DotAppend(CubicRow(x1), Zeros(4), s);
    DotAppend(Zeros(4), CubicRow(x1), s);
    DotAppend(Zeros(4), CubicRow(x2), s);
    ZeroRow(w1);
    ZeroRow(w2);
    CubicRowEval(x0, w1);
    CubicRowEval(x1, w1);
    CubicRowEval(x1, w2);
    CubicRowEval(x2, w2);
  }

  /** Rows 4-5 of SplineRows: the differences of slope and curvature at the middle point. */
  lemma SplineRowsJoin(x0: real, x1: real, x2: real, s: Vector)
    requires |s| == 8
    ensures var M, q1, q2 := SplineMatrix(x0, x1, x2), Reverse(s[..4]), Reverse(s[4..]);
            && MatVec(M, s)[4] == Slope(q1, x1) - Slope(q2, x1)
            && MatVec(M, s)[5] == Curvature(q1, x1) - Curvature(q2, x1)
  {
    var w1, w2 := s[..4], s[4..];
    assert s == w1 + w2;
    DotAppend(SlopeRow(x1), Scale(-1.0, SlopeRow(x1)), s);
    DotAppend(CurvatureRow(x1), Scale(-1.0, CurvatureRow(x1)), s);
    SlopeRowEval(x1, w1);
    SlopeRowEval(x1, w2);
    NegatedRow(SlopeRow(x1), w2);
    CurvatureRowEval(x1, w1);
    CurvatureRowEval(x1, w2);
    NegatedRow(CurvatureRow(x1), w2);
  }

  /** Rows 6-7 of SplineRows: the curvature at the outer points. */
  lemma SplineRowsEnds(x0: real, x1: real, x2: real, s: Vector)
    requires |s| == 8
    ensures var M, q1, q2 := SplineMatrix(x0, x1, x2), Reverse(s[..4]), Reverse(s[4..]);
            && MatVec(M, s)[6] == Curvature(q1, x0)
            && MatVec(M, s)[7] == Curvature(q2, x2)
  {
    var w1, w2 := s[..4], s[4..];
    assert s == w1 + w2;
    assert [6.0 * x0, 2.0] + Zeros(6) == CurvatureRow(x0) + Zeros(4);
    assert Zeros(4) + [6.0 * x2, 2.0] + Zeros(2) == Zeros(4) + CurvatureRow(x2);
    DotAppend(CurvatureRow(x0), Zeros(4), s);
    DotAppend(Zeros(4), CurvatureRow(x2), s);
    ZeroRow(w1);
    ZeroRow(w2);
    CurvatureRowEval(x0, w1);
    CurvatureRowEval(x2, w2);
  }

  /** What the 8×8 system says: s solves it exactly when its reversed halves form a natural
      cubic spline through the three points. */
  lemma SplineSystemMeaning(p0: Point, p1: Point, p2: Point, s: Vector)
    requires |s| == 8
    ensures MatVec(SplineMatrix(p0.x, p1.x, p2.x), s) == SplineValues(p0.y, p1.y, p2.y)
        <==> NaturalSpline(Reverse(s[..4]), Reverse(s[4..]), p0, p1, p2)
  {
    SplineRows(p0.x, p1.x, p2.x, s);
    var lhs, rhs := MatVec(SplineMatrix(p0.x, p1.x, p2.x), s), SplineValues(p0.y, p1.y, p2.y);
    if NaturalSpline(Reverse(s[..4]), Reverse(s[4..]), p0, p1, p2) {
      assert forall k :: 0 <= k < 8 ==> lhs[k] == rhs[k];
    }
  }

  /** The three-point spline fails with ValueError exactly when it is not given three points,
      and otherwise only when the solver rejects the system; on success it returns two cubics
      (lowest power first) forming the natural cubic spline through the points. */
  lemma ThreePointSplineProperties(points: seq<Point>, solve: (Matrix, Vector) -> Result<Vector>)
    requires IsLinearSolver(solve)
    ensures ThreePointSpline(points, solve) == Err(ValueError) <==> |points| != 3
    ensures ThreePointSpline(points, solve).Err? && |points| == 3 ==> ThreePointSpline(points, solve).error == LinAlgError
    ensures ThreePointSpline(points, solve).Ok? ==>
      var pieces := ThreePointSpline(points, solve).value;
      |pieces| == 2 && |pieces[0]| == 4 && |pieces[1]| == 4
      && NaturalSpline(pieces[0], pieces[1], points[0], points[1], points[2])
  {
    if |points| == 3 {
      var M := SplineMatrix(points[0].x, points[1].x, points[2].x);
      var b := SplineValues(points[0].y, points[1].y, points[2].y);
      assert SolvesCorrectly(solve, M, b);
      if solve(M, b).Ok? {
        SplineSystemMeaning(points[0], points[1], points[2], solve(M, b).value);
      }
    }
  }

  /** The natural cubic spline through three points is unique: any two cubics with the
      spline's conditions are the ones returned. */
  lemma ThreePointSplineUnique(points: seq<Point>, solve: (Matrix, Vector) -> Result<Vector>, q1: seq<real>, q2: seq<real>)
    requires IsLinearSolver(solve) && ThreePointSpline(points, solve).Ok?
    requires |q1| == 4 && |q2| == 4 && NaturalSpline(q1, q2, points[0], points[1], points[2])
    ensures ThreePointSpline(points, solve).value == [q1, q2]
  {
    ThreePointSplineProperties(points, solve);
    var M := SplineMatrix(points[0].x, points[1].x, points[2].x);
    var b := SplineValues(points[0].y, points[1].y, points[2].y);
    assert SolvesCorrectly(solve, M, b);
    var s := solve(M, b).value;
    var t := Reverse(q1) + Reverse(q2);
    assert t[..4] == Reverse(q1) && t[4..] == Reverse(q2);
    ReverseReverse(q1);
    ReverseReverse(q2);
    SplineSystemMeaning(points[0], points[1], points[2], t);
    SolutionUnique(M, s, t);
  }

  /** |range(0, n − 2, 2)|: the number of windows `cubic_spline_interpolation` visits. */
  function WindowCount(n: nat): nat {
    if n > 2 then (n - 1) / 2 else 0
  }

  /** The three-point spline with the solver fixed: what `cubic_spline_interpolation` applies
      to each window. */
  function WindowSolver(solve: (Matrix, Vector) -> Result<Vector>): seq<Point> -> Result<seq<Vector>> {
    window => ThreePointSpline(window, solve)
  }

  /** Two cubics (lowest power first) forming the natural spline through a window of three
      points. */
  predicate SplinePair(pair: seq<Vector>, window: seq<Point>) {
    && |pair| == 2 && |window| == 3 && |pair[0]| == 4 && |pair[1]| == 4
    && NaturalSpline(pair[0], pair[1], window[0], window[1], window[2])
  }

  function NaturalPair(): (seq<Vector>, seq<Point>) -> bool {
    (pair, window) => SplinePair(pair, window)
  }

  /** A window's outcome, when it has three points: a failure is LinAlgError, a success a pair
      of pieces with the property good. */
  predicate WindowOutcome(r: Result<seq<Vector>>, ps: seq<Point>, good: (seq<Vector>, seq<Point>) -> bool) {
    |ps| == 3 ==>
      && (r.Err? ==> r.error == LinAlgError)
      && (r.Ok? ==> |r.value| == 2 && good(r.value, ps))
  }

  /** Every window of three points is solved with the outcome good promises. */
  ghost predicate SplinesWindows(spline: seq<Point> -> Result<seq<Vector>>, good: (seq<Vector>, seq<Point>) -> bool) {
    forall ps: seq<Point> :: WindowOutcome(spline(ps), ps, good)
  }

  /** The three-point spline solves every window of three points into a natural spline pair,
      or fails with LinAlgError. */
  lemma WindowSolverSplines(solve: (Matrix, Vector) -> Result<Vector>)
    requires IsLinearSolver(solve)
    ensures SplinesWindows(WindowSolver(solve), NaturalPair())
  {
    forall ps: seq<Point>
      ensures WindowOutcome(WindowSolver(solve)(ps), ps, NaturalPair())
    {
      ThreePointSplineProperties(ps, solve);
    }
  }

  /** The pieces of the first k windows points[2w..2w+3], each window solved by spline, or
      the first failure among them. */
  function CubicSplineUpTo(points: seq<Point>, k: nat, spline: seq<Point> -> Result<seq<Vector>>): Result<seq<Vector>>
    requires k <= WindowCount(|points|)
  {
    if k == 0 then
      Ok([])
    else
      var previous :- CubicSplineUpTo(points, k - 1, spline);
      var pieces :- spline(points[2 * (k - 1)..2 * (k - 1) + 3]);
      Ok(previous + pieces)
  }

  function CubicSpline(points: seq<Point>, solve: (Matrix, Vector) -> Result<Vector>): Result<seq<Vector>> {
    CubicSplineUpTo(points, WindowCount(|points|), WindowSolver(solve))
  }

  lemma {:induction false} CubicSplineErrorPersists(points: seq<Point>, k: nat, m: nat, spline: seq<Point> -> Result<seq<Vector>>)
    requires k <= m <= WindowCount(|points|) && CubicSplineUpTo(points, k, spline).Err?
    ensures CubicSplineUpTo(points, m, spline) == CubicSplineUpTo(points, k, spline)
    decreases m
  {
    if m > k {
      CubicSplineErrorPersists(points, k, m - 1, spline);
    }
  }

  /** `cubic_spline_interpolation(points)` (lines 208-229): windows of three points starting at
      i = 0, 2, 4, … while i < len(points) − 2, each solved by the three-point spline, the
      pieces collected in order; the first failure propagates. */
  method CubicSplineInterpolation(points: seq<Point>, solve: (Matrix, Vector) -> Result<Vector>)
    returns (r: Result<seq<Vector>>)
    ensures r == CubicSpline(points, solve)
  {
    var allCoefficients: seq<Vector> := [];
    var i := 0;
    ghost var k := 0;
    ghost var spline := WindowSolver(solve);
    while i < |points| - 2
      invariant i == 2 * k && k <= WindowCount(|points|)
      invariant i < |points| - 2 ==> k < WindowCount(|points|)
      invariant i >= |points| - 2 ==> k == WindowCount(|points|)
      invariant CubicSplineUpTo(points, k, spline) == Ok(allCoefficients)
    {
      var generated := ThreePointCubicSpline(points[i..i + 3], solve);
      CubicSplineStep(points, k, spline, allCoefficients);
      if generated.Err? {
        return Err(generated.error);
      }
      allCoefficients := allCoefficients + generated.value;
      i := i + 2;
      k := k + 1;
    }
    return Ok(allCoefficients);
  }

  /** One pass of the loop: window k either fails, and its failure is the result, or its
      pieces are appended. */
  lemma CubicSplineStep(points: seq<Point>, k: nat, spline: seq<Point> -> Result<seq<Vector>>, previous: seq<Vector>)
    requires k < WindowCount(|points|) && CubicSplineUpTo(points, k, spline) == Ok(previous)
    ensures var generated := spline(points[2 * k..2 * k + 3]);
            && (generated.Err? ==> CubicSplineUpTo(points, WindowCount(|points|), spline) == Err(generated.error))
            && (generated.Ok? ==> CubicSplineUpTo(points, k + 1, spline) == Ok(previous + generated.value))
  {
    if spline(points[2 * k..2 * k + 3]).Err? {
      CubicSplineErrorPersists(points, k + 1, WindowCount(|points|), spline);
    }
  }

  /** Cubics 2w and 2w + 1 of the pieces are the natural spline through points 2w, 2w + 1 and
      2w + 2 (window w). */
  predicate WindowSpline(pieces: seq<Vector>, points: seq<Point>, w: nat) {
    && 2 * w + 1 < |pieces| && 2 * w + 2 < |points|
    && |pieces[2 * w]| == 4 && |pieces[2 * w + 1]| == 4
    && NaturalSpline(pieces[2 * w], pieces[2 * w + 1], points[2 * w], points[2 * w + 1], points[2 * w + 2])
  }

  /** Pieces 2w and 2w + 1, with window w of the points, have the property good. */
  predicate WindowGood(pieces: seq<Vector>, points: seq<Point>, w: nat, good: (seq<Vector>, seq<Point>) -> bool) {
    2 * w + 1 < |pieces| && 2 * w + 2 < |points| && good(pieces[2 * w..2 * w + 2], points[2 * w..2 * w + 3])
  }

  /** Appending the pair of window k keeps the windows already covered and covers window k. */
  lemma WindowGoodSnoc(previous: seq<Vector>, pair: seq<Vector>, points: seq<Point>, w: nat, k: nat,
                       good: (seq<Vector>, seq<Point>) -> bool)
    requires |previous| == 2 * k && w <= k
    requires w < k ==> WindowGood(previous, points, w, good)
    requires w == k ==> |pair| == 2 && 2 * k + 2 < |points| && good(pair, points[2 * k..2 * k + 3])
    ensures WindowGood(previous + pair, points, w, good)
  {
    var pieces := previous + pair;
    if w < k {
      assert pieces[2 * w..2 * w + 2] == previous[2 * w..2 * w + 2];
    } else {
      assert pieces[2 * w..2 * w + 2] == pair;
    }
  }

  /** When every window is solved as good promises, the guard on three points never fires;
      after k windows there are 2k pieces, and pieces 2w and 2w + 1 have the property good
      with points 2w, 2w + 1 and 2w + 2. */
  lemma {:induction false} CubicSplineUpToPieces(points: seq<Point>, k: nat, spline: seq<Point> -> Result<seq<Vector>>,
                                                 good: (seq<Vector>, seq<Point>) -> bool)
    requires SplinesWindows(spline, good) && k <= WindowCount(|points|)
    ensures CubicSplineUpTo(points, k, spline).Err? ==> CubicSplineUpTo(points, k, spline).error == LinAlgError
    ensures CubicSplineUpTo(points, k, spline).Ok? ==>
      var pieces := CubicSplineUpTo(points, k, spline).value;
      && |pieces| == 2 * k
      && forall w: nat :: w < k ==> WindowGood(pieces, points, w, good)
    decreases k
  {
    if k > 0 {
      CubicSplineUpToPieces(points, k - 1, spline, good);
      var n := k - 1;
      var window := points[2 * n..2 * n + 3];
      assert WindowOutcome(spline(window), window, good);
      if CubicSplineUpTo(points, k, spline).Ok? {
        var previous := CubicSplineUpTo(points, n, spline).value;
        var pair := spline(window).value;
        assert CubicSplineUpTo(points, k, spline).value == previous + pair;
        forall w: nat | w < k
          ensures WindowGood(previous + pair, points, w, good)
        {
          WindowGoodSnoc(previous, pair, points, w, n, good);
        }
      }
    }
  }

  /** A natural spline pair in window w is cubics 2w and 2w + 1 through points 2w, 2w + 1 and
      2w + 2. */
  lemma NaturalWindow(pieces: seq<Vector>, points: seq<Point>, w: nat)
    requires WindowGood(pieces, points, w, NaturalPair())
    ensures WindowSpline(pieces, points, w)
  {
    var pair, window := pieces[2 * w..2 * w + 2], points[2 * w..2 * w + 3];
    assert SplinePair(pair, window);
    assert pair[0] == pieces[2 * w] && pair[1] == pieces[2 * w + 1];
    assert window[0] == points[2 * w] && window[1] == points[2 * w + 1] && window[2] == points[2 * w + 2];
  }

  /** The cubic spline never raises ValueError, returns two cubics per window, and each
      window's pair is the natural spline through its three points. */
  lemma CubicSplineProperties(points: seq<Point>, solve: (Matrix, Vector) -> Result<Vector>)
    requires IsLinearSolver(solve)
    ensures CubicSpline(points, solve).Err? ==> CubicSpline(points, solve).error == LinAlgError
    ensures CubicSpline(points, solve).Ok? ==>
      var pieces := CubicSpline(points, solve).value;
      && |pieces| == 2 * WindowCount(|points|)
      && forall w: nat :: w < WindowCount(|points|) ==> WindowSpline(pieces, points, w)
  {
    WindowSolverSplines(solve);
    CubicSplineUpToPieces(points, WindowCount(|points|), WindowSolver(solve), NaturalPair());
    if CubicSpline(points, solve).Ok? {
      var pieces := CubicSpline(points, solve).value;
      forall w: nat | w < WindowCount(|points|)
        ensures WindowSpline(pieces, points, w)
      {
        NaturalWindow(pieces, points, w);
      }
    }
  }

  /** Consecutive windows share a point, where the last cubic of one window and the first of
      the next both take that point's y. */
  lemma CubicSplineJoins(points: seq<Point>, solve: (Matrix, Vector) -> Result<Vector>, w: nat)
    requires IsLinearSolver(solve) && CubicSpline(points, solve).Ok?
    requires w + 1 < WindowCount(|points|)
    ensures var pieces := CubicSpline(points, solve).value;
            && |pieces| == 2 * WindowCount(|points|)
            && PolyEval(pieces[2 * w + 1], points[2 * w + 2].x) == points[2 * w + 2].y
            && PolyEval(pieces[2 * w + 2], points[2 * w + 2].x) == points[2 * w + 2].y
  {
    CubicSplineProperties(points, solve);
    var pieces := CubicSpline(points, solve).value;
    assert WindowSpline(pieces, points, w);
    assert WindowSpline(pieces, points, w + 1);
    assert 2 * (w + 1) == 2 * w + 2;
  }

  /** The windows reach the last point exactly when the number of points is odd; with an
      even number (at least 4) the last point lies in no window. */
  lemma WindowCoverage(n: nat)
    requires n >= 3
    ensures 2 * WindowCount(n) + 1 <= n
    ensures 2 * WindowCount(n) + 1 == n <==> n % 2 == 1
  {
  }

  /** The eleven sample points give five windows, hence ten cubics. */
  lemma ElevenPointsTenCubics()
    ensures 2 * WindowCount(11) == 10
  {
  }
}
