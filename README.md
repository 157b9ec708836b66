# Verified model of the interpolation slides' helper code

The repository builds animated slides about polynomial interpolation. Its computational core
fits polynomials through points:

- an exact fit through the points, or a least-squares fit via the normal equations;
- a linear spline over neighbouring pairs of points;
- natural cubic splines over windows of three points.

Around that core sit small helpers:

- transposing a list-of-rows matrix;
- assembling LaTeX for a `cases` environment and for matrices;
- sign-aware number formatting;
- the Witch of Agnesi curve and the sample points drawn from it;
- the TeX pieces of a generic polynomial;
- HSV colour-scale conversion and brightening;
- the rotation angle of a knob;
- the tokenizer and the comparison used by the spline tests.

This project restates that code in Dafny and proves what it promises.

- Numbers are exact reals, or integers where the code uses `range`.
- `numpy.linalg.solve` is a function parameter `solve`. Its contract is the predicate
  `LinearAlgebra.IsLinearSolver`: it succeeds exactly on a non-empty square non-singular
  system with a matching right-hand side, and its result `c` then satisfies `A·c = b`. In
  every other case it fails with `LinAlgError`.
- π is a real parameter of the knob model.
- Python exceptions become the `Err` case of `Wrappers.Result`. Optional arguments become
  `Wrappers.Option`, with the source's defaults applied by `GetOr`.

Modules follow the source files:

| module | source file |
|---|---|
| `Wrappers` | Python's `None` defaults and exceptions |
| `GeneralUtilities` | helper_functions/general_utilities.py |
| `MathFunctions` | helper_functions/math_functions.py |
| `MatrixUtilities` | helper_functions/matrix_utilities.py |
| `LinearAlgebra` | the numpy operations the fitting code uses (`transpose`, `matmul`, `linalg.solve`) |
| `Polynomial` | evaluation of coefficient lists, as the fitting code and the template use them |
| `PolynomialShift` | moving a polynomial's variable by a center m (the Taylor shift), which relates a centred fit to the uncentred one |
| `PointInterpolation` | helper_functions/point_interpolation.py |
| `LatexUtilities` | helper_functions/latex_utilities.py |
| `SharedConstants` | interpolation/shared_constants.py |
| `ColorUtilities` | helper_functions/color_utilities.py |
| `KnobRotation` | helper_functions/knob/knob.py |
| `PointInterpolationTests` | helper_functions/tests/point_interpolation_tests.py |

Where the source builds a result step by step, the model has a `method` with the same loops. The
method is proved equal to a specification function, and the lemmas state what that function
means.

The cubic spline's number of polynomials follows the code. It visits the windows
`range(0, n - 2, 2)`, so `n` points give `2·|range(0, n - 2, 2)|` polynomials. For an odd `n`
that is one window more than `floor((n - 2) / 2)`. The eleven sample points give ten cubics.

## Model

| member | source | states |
|---|---|---|
| GeneralUtilities.AdditionString | helper_functions/general_utilities.py:37-40 | the result is a sign followed by decimal digits; the sign is `+` exactly when n ≥ 0; a negative number is its own `str`, any other is `"+"` followed by its `str` |
| GeneralUtilities.AdditionStringRoundTrip | helper_functions/general_utilities.py:37-40 | reading the string back as a signed integer gives n again |
| GeneralUtilities.AdditionStringInjective | helper_functions/general_utilities.py:37-40 | distinct integers never format to the same string |
| GeneralUtilities.AdditionStringExamples | helper_functions/general_utilities.py:35-40 | the docstring examples 1 → "+1" and -1 → "-1" hold; 0 → "+0"; -25 → "-25" |
| MathFunctions.WitchOfAgnesi | helper_functions/math_functions.py:5-11 | division by zero exactly when x = 0 and r = 0, and a value otherwise |
| MathFunctions.WitchOfAgnesiValue | helper_functions/math_functions.py:5-11 | when x and r are not both 0, the value times x² + 4r² is 8r³ |
| MathFunctions.DenominatorSign | helper_functions/math_functions.py:11 | x² + 4r² is at least 4r², strictly more for x ≠ 0, and zero only at x = r = 0 |
| MathFunctions.WitchIsEven | helper_functions/math_functions.py:11 | f(-x, r) = f(x, r), errors included |
| MathFunctions.WitchBounds | helper_functions/math_functions.py:11 | for r > 0 the value is defined and lies in (0, 2r], reaching 2r exactly at x = 0 |
| MatrixUtilities.TransposeOf | helper_functions/matrix_utilities.py:14-22 | the transpose has one row per column, each as long as the number of rows, and entry [a][b] is entry [b][a] of the input |
| MatrixUtilities.TransposeMatrix | helper_functions/matrix_utilities.py:7-22 | IndexError exactly when the input is empty or some row is shorter than the first; otherwise len(entries[0]) rows of len(entries) entries with result[a][b] = entries[b][a] |
| MatrixUtilities.TransposeTwice | helper_functions/matrix_utilities.py:14-22 | transposing a non-empty rectangular matrix twice gives it back |
| LinearAlgebra.NormalMatrixSymmetric | helper_functions/point_interpolation.py:70-72 | the least-squares matrix AᵀA is symmetric |
| LinearAlgebra.Adjoint | helper_functions/point_interpolation.py:70-72 | (A·v)·w = v·(Aᵀ·w), the fact behind the normal equations |
| LinearAlgebra.NormalEquationsMinimise | helper_functions/point_interpolation.py:70-72 | a solution of AᵀA·c = Aᵀ·b has a squared residual no larger than that of any other c |
| LinearAlgebra.SolutionUnique | helper_functions/point_interpolation.py:78-79 | a non-singular square system has at most one solution |
| Polynomial.DotPowerRow | helper_functions/point_interpolation.py:101-109 | a row [1, t, …, t^(k-1)] dotted with k coefficients is the polynomial's value at t |
| Polynomial.CubicSlope | helper_functions/point_interpolation.py:148-193 | the first derivative of a cubic is c1 + 2c2·t + 3c3·t² |
| Polynomial.CubicCurvature | helper_functions/point_interpolation.py:148-193 | the second derivative of a cubic is 2c2 + 6c3·t |
| PointInterpolation.Vandermonde | helper_functions/point_interpolation.py:54-68 | one row per point, each with degree + 1 entries |
| PointInterpolation.Values | helper_functions/point_interpolation.py:54-68 | the right-hand side holds each point's y, in order |
| PointInterpolation.VandermondeEvaluates | helper_functions/point_interpolation.py:54-68 | row a of the system applied to c is the polynomial c evaluated at x_a - m, where m is the center or 0 |
| PointInterpolation.InterpolateOver | helper_functions/point_interpolation.py:16-82 | the method's defaults, guard, row-building loops, least-squares swap and solve give exactly `Interpolation` |
| PointInterpolation.InterpolationValueError | helper_functions/point_interpolation.py:41-52 | ValueError exactly when the degree (default len - 1) is below len(points) - 1 without least squares; no other path raises it |
| PointInterpolation.InterpolationSolvesSystem | helper_functions/point_interpolation.py:54-82 | a successful fit has degree + 1 coefficients that solve the square system built (the normal equations with least squares); the matrices are returned exactly when asked |
| PointInterpolation.NormalSystemSymmetric | helper_functions/point_interpolation.py:70-72 | the least-squares system's matrix AᵀA is square, of side degree + 1, and symmetric |
| PointInterpolation.ExactFitReproducesPoints | helper_functions/point_interpolation.py:54-82 | without least squares a successful fit passes through every point |
| PointInterpolation.ExactFitSucceeds | helper_functions/point_interpolation.py:41-82 | with at least one point, pairwise distinct x and the degree len(points) - 1, the exact fit is returned, for any center, and passes through every point |
| PointInterpolation.VandermondeRegular | helper_functions/point_interpolation.py:54-68 | with as many powers as points and distinct x, the coefficient matrix is square and non-singular |
| PolynomialShift.RootsZero | helper_functions/point_interpolation.py:54-68 | a coefficient list no longer than its number of distinct roots is all zeros |
| PointInterpolation.ExactFitUnique | helper_functions/point_interpolation.py:54-82 | any polynomial of that degree through the points equals the returned fit |
| PointInterpolation.OverDegreeRejected | helper_functions/point_interpolation.py:78-82 | a degree above len(points) - 1 without least squares gives a wide system, which the solver rejects with LinAlgError |
| PointInterpolation.ConflictingPointsRejected | helper_functions/point_interpolation.py:54-82 | two points with the same x and different y make the exact fit fail |
| PointInterpolation.LeastSquaresMinimises | helper_functions/point_interpolation.py:70-82 | the least-squares coefficients have the smallest sum of squared residuals among all polynomials of that degree |
| PointInterpolation.CenteringInvariance | helper_functions/point_interpolation.py:60-72 | exact or least-squares, the fit centred on m succeeds exactly when the uncentred fit does; then its coefficients are the Taylor shift of the uncentred ones, and Σ cᵐᵢ·(x - m)ⁱ = Σ c⁰ᵢ·xⁱ at every x |
| PointInterpolation.CenteringKeepsSingular | helper_functions/point_interpolation.py:60-65 | centring leaves the system as tall, square exactly when the uncentred system is, and then singular exactly when it is |
| PointInterpolation.CenteringKeepsNormalSingular | helper_functions/point_interpolation.py:60-72 | centring leaves the least-squares system of the same size, and its matrix singular exactly when the uncentred one is |
| PointInterpolation.NormalShiftSolves | helper_functions/point_interpolation.py:60-72 | the Taylor shift of a solution of the uncentred normal equations solves the centred ones |
| PointInterpolation.OrthogonalMoves | helper_functions/point_interpolation.py:60-72 | a vector orthogonal to the columns of the system at one center is orthogonal to the columns at the other |
| LinearAlgebra.NormalKernel | helper_functions/point_interpolation.py:70-72 | AᵀA sends a vector to zero exactly when A does |
| LinearAlgebra.NormalEquationsResidual | helper_functions/point_interpolation.py:70-72 | c solves the normal equations exactly when its residual A·c - b is orthogonal to every column of A |
| PolynomialShift.ShiftedPowerEval | helper_functions/point_interpolation.py:60-65 | the coefficients of (t + m)ᵏ, evaluated at x - m, give xᵏ |
| PolynomialShift.TaylorShiftEval | helper_functions/point_interpolation.py:60-65 | the shifted coefficients, evaluated at x - m, give the original polynomial at x |
| PolynomialShift.TaylorShiftZero | helper_functions/point_interpolation.py:60-65 | only the zero coefficient list shifts to zeros, so a non-trivial kernel vector stays non-trivial after centring |
| PointInterpolation.FunctionTemplate | helper_functions/point_interpolation.py:85-109 | the template gives (x, Σ cᵢ·(x - m)ⁱ, 0); an empty coefficient list gives 0 |
| PointInterpolation.PairFitSucceeds | helper_functions/point_interpolation.py:119-127 | the default fit through two points succeeds exactly when their x differ, and otherwise fails with LinAlgError |
| PointInterpolation.PairFitPassesThrough | helper_functions/point_interpolation.py:119-127 | a successful pair fit is a line through both points |
| PointInterpolation.LinearSplineInterpolation | helper_functions/point_interpolation.py:112-127 | the loop over neighbouring pairs gives exactly `LinearSpline` |
| PointInterpolation.LinearSplineProperties | helper_functions/point_interpolation.py:112-127 | success exactly when neighbouring x differ; then len(points) - 1 lines (none for fewer than two points), line i a pair of coefficients through points i and i+1; failure is LinAlgError |
| PointInterpolation.ThreePointCubicSpline | helper_functions/point_interpolation.py:130-205 | the guard, the eight appended rows, the solve and the reversal of both halves give exactly `ThreePointSpline`, the window solver the cubic spline loop calls |
| PointInterpolation.CubicRowEval | helper_functions/point_interpolation.py:148-193 | a point row dotted with a cubic's coefficients (highest first) is the cubic's value |
| PointInterpolation.SlopeRowEval | helper_functions/point_interpolation.py:148-193 | a slope row dotted with the coefficients is the cubic's first derivative |
| PointInterpolation.CurvatureRowEval | helper_functions/point_interpolation.py:148-193 | a curvature row dotted with the coefficients is the cubic's second derivative |
| PointInterpolation.SplineMatrix | helper_functions/point_interpolation.py:148-193 | the system is 8×8 |
| PointInterpolation.SplineSystemMeaning | helper_functions/point_interpolation.py:148-193 | a vector solves the 8×8 system exactly when its reversed halves are cubics through P0, P1 and P1, P2 with equal slope and curvature at x1 and zero curvature at x0 and x2 |
| PointInterpolation.ThreePointSplineProperties | helper_functions/point_interpolation.py:144-205 | ValueError exactly when not given three points; other failures are LinAlgError; success gives two cubics, lowest power first, forming a natural spline through the three points |
| PointInterpolation.ThreePointSplineUnique | helper_functions/point_interpolation.py:148-205 | any pair of cubics forming a natural spline through the points is the returned pair |
| PointInterpolation.CubicSplineInterpolation | helper_functions/point_interpolation.py:208-229 | the loop over windows 0, 2, 4, … below n - 2 gives exactly `CubicSpline` |
| PointInterpolation.CubicSplineProperties | helper_functions/point_interpolation.py:215-229 | never ValueError (every window has three points); success gives 2·|range(0, n-2, 2)| cubics, and window w's pair is a natural spline through points 2w, 2w+1, 2w+2 |
| PointInterpolation.CubicSplineJoins | helper_functions/point_interpolation.py:215-229 | consecutive windows share a point, and both neighbouring cubics pass through it |
| PointInterpolation.WindowCoverage | helper_functions/point_interpolation.py:215-216 | the windows never run past the last point, and they end exactly on it when n is odd |
| PointInterpolation.ElevenPointsTenCubics | helper_functions/point_interpolation.py:215-216 | eleven points give ten cubics |
| LatexUtilities.CreateCases | helper_functions/latex_utilities.py:23-57 | defaults wrap = true and list = false; a single equation is a list of one; the code is `\begin{cases}`, each equation with `\\`, `\end{cases}`, between `$$` only when wrapping; with list, the pieces |
| LatexUtilities.CasesPiecesJoin | helper_functions/latex_utilities.py:43-57 | the list has len(equations) + 2 pieces, and they concatenate to the unwrapped code |
| LatexUtilities.CasesCodeLines | helper_functions/latex_utilities.py:43-52 | equation i, followed by a line break, sits right after the opening and the earlier equations |
| LatexUtilities.StyleNamesDistinct | helper_functions/latex_utilities.py:60-71 | the matrix styles name distinct environments, each ending in "matrix" |
| LatexUtilities.StripTrailing | helper_functions/latex_utilities.py:93 | removing ampersands from the end leaves a prefix that does not end in `&`, and only `&` was removed |
| LatexUtilities.StripLeading | helper_functions/latex_utilities.py:93 | removing ampersands from the front leaves a suffix that does not start with `&`, and only `&` was removed |
| LatexUtilities.RowCodeTrailingEmpty | helper_functions/latex_utilities.py:91-94 | an empty entry at the end of a row does not change the row's code |
| LatexUtilities.RowCodeSeparated | helper_functions/latex_utilities.py:91-94 | a row whose last entry is non-empty and does not end in `&` is its entries joined by `&`, then `\\` |
| LatexUtilities.CreateMatrix | helper_functions/latex_utilities.py:74-97 | the default style is pmatrix; the result is `\begin{style}`, each row's code, `\end{style}` |
| SharedConstants.RangeShape | interpolation/shared_constants.py:46 | Python's `range` with a positive step: non-empty exactly when start < stop; starts at start; steps by step; every element in [start, stop); the last within one step of stop |
| SharedConstants.RangeMembership | interpolation/shared_constants.py:46 | y is in range(start, stop, step) exactly when start ≤ y < stop and step divides y - start |
| SharedConstants.WitchPointsMeaning | interpolation/shared_constants.py:46-50 | the points fail exactly when r = 0 and 0 is among the x (ZeroDivisionError); otherwise point i is [x_i, witch(x_i, r)] |
| SharedConstants.EvaluatedPointsMeaning | interpolation/shared_constants.py:46-50 | for any curve: the points exist exactly when every evaluation succeeds, and then point i is [x_i, f(x_i)]; otherwise the error is that of a failing evaluation |
| SharedConstants.EvaluatedPointsErrorPersists | interpolation/shared_constants.py:46-50 | once an evaluation has failed, further x values leave the error unchanged |
| SharedConstants.EvaluatedPointsAppend | interpolation/shared_constants.py:45-50 | evaluating two lists of x one after the other gives the concatenated points |
| SharedConstants.EvaluatedPointsFailAtZero | interpolation/shared_constants.py:46-50 | for a curve that fails only at x = 0 with a ZeroDivisionError: the points fail exactly when 0 is among the x |
| SharedConstants.WitchCurveFails | helper_functions/math_functions.py:5-11 | the witch with radius r fails only at x = 0 with r = 0, with a ZeroDivisionError |
| SharedConstants.EvaluatePoints | interpolation/shared_constants.py:45-50 | the loop appends [x, f(x)] for each x in order and stops at the first failing evaluation; its result is `EvaluatedPoints` |
| SharedConstants.GetWitchOfAgnesiPointsFromInterval | interpolation/shared_constants.py:23-50 | spacing and radius default to 1; a zero spacing is a ValueError; otherwise the witch points of range(x_start, x_end + s, s) |
| SharedConstants.PointsFromIntervalXs | interpolation/shared_constants.py:46 | the x strictly increase from x_start; x_end is among them exactly when x_start ≤ x_end and s divides x_end - x_start; the last lies in [x_end, x_end + s) |
| SharedConstants.RangeFirstSegment | interpolation/shared_constants.py:180-182 | the first interval's x are 2, 4, 6 |
| SharedConstants.RangeSecondSegment | interpolation/shared_constants.py:183-185 | the second interval's x are -10, -8, …, 0 |
| SharedConstants.RangeThirdSegment | interpolation/shared_constants.py:186-188 | the third interval's x are 8, 10 |
| SharedConstants.AllEvaluatedPointsLayout | interpolation/shared_constants.py:178-193 | the shared list is the points of [2, 6], then of [-10, 0], then of [8, 10], each without error |
| SharedConstants.AllEvaluatedPointsValues | interpolation/shared_constants.py:178-193 | the eleven points have x = 2, 4, 6, -10, …, 0, 8, 10, each once, and y = witch(x, 2) |
| SharedConstants.SortedAllEvaluatedPointsLayout | interpolation/shared_constants.py:199-201 | the sorted copy is the points of [-10, 0], then [2, 6], then [8, 10] |
| SharedConstants.SortedAllEvaluatedPointsIsSorted | interpolation/shared_constants.py:200-201 | the sorted copy is strictly ascending in x, holds the same points, and the original list keeps its own order |
| SharedConstants.SortedPermutationUnique | interpolation/shared_constants.py:200-201 | an ascending permutation of a strictly ascending list is that list |
| SharedConstants.SortedAllEvaluatedPointsUnique | interpolation/shared_constants.py:200-201 | any ascending rearrangement of the eleven points is the sorted copy, so a stable sort by x yields it |
| SharedConstants.PowerTerms | interpolation/shared_constants.py:155-161 | the loop's n passes add 2n pieces |
| SharedConstants.GenerateGenericPolynomialEquation | interpolation/shared_constants.py:130-169 | implicit powers default to false; the reversed powers, the loop and the tail give exactly `GenericPolynomialEquation` |
| SharedConstants.PowerTermsAt | interpolation/shared_constants.py:155-161 | pass k adds the term of c_{k+1} with power degree - k, then "+" |
| SharedConstants.InterleaveAt | interpolation/shared_constants.py:155-161 | in a list where each piece is followed by a separator, piece k sits at index 2k and the separator at 2k + 1 |
| SharedConstants.EquationPluses | interpolation/shared_constants.py:155-161 | after "y=", pass k of the loop leaves "+" at index 2k + 2 |
| SharedConstants.EquationTerms | interpolation/shared_constants.py:155-161 | pass k of the loop leaves the term of c_{k+1} with power degree - k at index 2k + 1 |
| SharedConstants.EquationTail | interpolation/shared_constants.py:162-168 | after the loop's pieces: "c_{degree}x" and "+" unless the implicit powers are shown, then the constant term "c_{degree+1} " or "c_{degree+1} x^0" |
| SharedConstants.GenericPolynomialEquationShape | interpolation/shared_constants.py:155-168 | "y=" first; 2·degree + 2 pieces; "+" at every even index 2…2·degree; odd pieces name c_1… with powers degree down to 1; the c_degree piece is "c_{degree}x" without implicit powers; the last piece is "c_{degree+1} " or "c_{degree+1} x^0" |
| SharedConstants.GenericPolynomialEquationDegreeOne | interpolation/shared_constants.py:173 | the degree-1 list, and the degree-1 list with implicit powers, piece by piece |
| SharedConstants.GenericPolynomialEquationDegreeTwo | interpolation/shared_constants.py:174 | the degree-2 list, piece by piece |
| SharedConstants.GenericPolynomialEquationDegreeThree | interpolation/shared_constants.py:175 | the degree-3 list, piece by piece |
| SharedConstants.GenericPolynomialEquationDegreeZero | interpolation/shared_constants.py:155-168 | degree 0 without implicit powers gives "y=", "c_{0}x", "+", "c_{1} " |
| ColorUtilities.ConvertManimHsvFormat | helper_functions/color_utilities.py:89-112 | towards Manim's scales (the default) each component is its value over 360, 100, 100; the other way it is multiplied by them |
| ColorUtilities.ConvertRoundTrip | helper_functions/color_utilities.py:107-112 | converting one way and back gives the colour again, in both orders |
| ColorUtilities.ConvertScales | helper_functions/color_utilities.py:107-112 | the usual 0-360/0-100/0-100 box maps exactly onto Manim's unit box |
| ColorUtilities.AdjustedBrightness | helper_functions/color_utilities.py:70-84 | v plus or minus the change, clamped into [0, 100]: unchanged inside the range, 100 above it, 0 below it |
| ColorUtilities.AdjustedBrightnessDirection | helper_functions/color_utilities.py:70-84 | brightening never lowers v and darkening never raises it, by at most the change |
| ColorUtilities.AdjustedBrightnessUndo | helper_functions/color_utilities.py:70-84 | a brightening that stays within 100 is undone by darkening by the same change |
| ColorUtilities.DarkerOrBrighter | helper_functions/color_utilities.py:50-86 | the change defaults to 50 and darkens unless brighter holds; hue and saturation are unchanged; the new value is the clamped brightness on Manim's scale, in [0, 1] |
| ColorUtilities.CycleThroughColorWheelArguments | helper_functions/color_utilities.py:15-40 | saturation defaults to 80 and brightness to 100; accepted exactly when at least two colours are asked for and both lie in [0, 100], otherwise ValueError; the step times the colour count is 359 |
| ColorUtilities.CycleThroughColorWheelDefaults | helper_functions/color_utilities.py:30-40 | with the defaults only the colour count matters; the step is positive, at most 179.5, and n - 1 steps stop one step short of 359 |
| KnobRotation.NewKnob | helper_functions/knob/knob.py:63-66 | min defaults to 1 and max to 10 |
| KnobRotation.Knob.RotationAngle | helper_functions/knob/knob.py:159-162 | the angle satisfies (a - π/4)·(max - min) = -(π/2)·(value - min) |
| KnobRotation.Knob.GetKnobRotationAngle | helper_functions/knob/knob.py:151-169 | ZeroDivisionError exactly when max = min; an accepted angle lies in [-π/4, π/4] and is the linear map of the value |
| KnobRotation.RotationAngleIsAngle | helper_functions/knob/knob.py:159-168 | the angle is π/4 - (π/2)·(value - min)/(max - min), returned when in [-π/4, π/4] and a ValueError otherwise |
| KnobRotation.RotationAngleEndpoints | helper_functions/knob/knob.py:157-162 | min gives π/4 and max gives -π/4 |
| KnobRotation.RotationAngleAccepts | helper_functions/knob/knob.py:163-168 | a value is accepted exactly when it lies between the bounds; a rejection is a ValueError |
| KnobRotation.AngleWithinRange | helper_functions/knob/knob.py:158-162 | with π > 0, π/4 - (π/2)·f passes the range check exactly when 0 ≤ f ≤ 1 |
| KnobRotation.FractionBetween | helper_functions/knob/knob.py:160-162 | the fraction (value - min)/(max - min) lies in [0, 1] exactly when the value lies between the bounds, in either order |
| KnobRotation.RotationAngleDecreasing | helper_functions/knob/knob.py:161-162 | with max > min the angle falls strictly as the value grows |
| KnobRotation.DefaultKnobAngles | helper_functions/knob/knob.py:63-66 | the default knob shows 1 at π/4, 10 at -π/4 and 5.5 upright, and rejects 11 |
| PointInterpolationTests.SplitLinesProperties | helper_functions/tests/point_interpolation_tests.py:52 | one more line than there are newlines; no line holds a newline; joining the lines with "\n" gives the input back |
| PointInterpolationTests.ScanWellFormed | helper_functions/tests/point_interpolation_tests.py:55-66 | every closed token is a non-empty run of digits, `-` and `.`; the open run is made of them too and is the end of the line read so far |
| PointInterpolationTests.TokensWellFormed | helper_functions/tests/point_interpolation_tests.py:55-66 | every token is a non-empty run of digits, `-` and `.` |
| PointInterpolationTests.TokensSplit | helper_functions/tests/point_interpolation_tests.py:55-66 | any other character ends a token: the tokens of a + [c] + b are those of a, then those of b |
| PointInterpolationTests.TokensOfRun | helper_functions/tests/point_interpolation_tests.py:55-66 | a line that is one run is one token, even when the run reaches the end of the line |
| PointInterpolationTests.TokensOfSeparators | helper_functions/tests/point_interpolation_tests.py:55-66 | a line with no digits, `-` or `.` has no tokens |
| PointInterpolationTests.TokensExample | helper_functions/tests/point_interpolation_tests.py:55-66 | "1e-5" gives "1" and "-5"; "0.5,-2.25" gives "0.5" and "-2.25" |
| PointInterpolationTests.DataToCoefficientsList | helper_functions/tests/point_interpolation_tests.py:47-68 | one row per "\n"-separated line, and row i is the tokens of line i, in order |
| PointInterpolationTests.DataToCoefficientsRows | helper_functions/tests/point_interpolation_tests.py:52-67 | the row count is the number of newlines plus one, and an empty line gives an empty row |
| PointInterpolationTests.AssertCoefficientsEqual | helper_functions/tests/point_interpolation_tests.py:70-90 | passes exactly when the outer lengths, every row's length and every entry (to 10 decimals) agree; reports the outer length first, then the first row whose length differs, then the first differing entry |
| PointInterpolationTests.AssertCoefficientsEqualExamples | helper_functions/tests/point_interpolation_tests.py:85-90 | every list matches itself; at 10 decimals 10⁻⁹ differs from 0 and 10⁻¹¹ does not |

## Left out

- Floating point: every number is an exact real or an unbounded integer. Rounding in the solves, in `359 / n` and in the colour scaling is not modelled.
- `numpy.linalg.solve` is specified, not implemented. LU factorisation and pivoting are not modelled; the model's solver fails exactly on singular matrices, whereas in floating point a nearly singular system can be solved without error.
- The cubic spline model does not prove that the 8×8 system of three points with distinct x is non-singular. The properties of a successful spline hold regardless, and failures are shown to be LinAlgError.
- `interpolation_coefficients_to_function_template` builds a sympy expression and `lambdify`s it. The model evaluates the same sum at a real x.
- `create_matrix` calls `str` on arbitrary Python values; the model takes the entries as strings. Its `print` is not modelled.
- `addition_string` is modelled on integers only; the `str` of a float is not part of this model.
- Python's `isdigit` also accepts non-ASCII digits; the tokenizer model accepts only '0'-'9'.
- PointInterpolationTests.DataToCoefficientsList keeps the tokens as strings, because the `float(...)` parse raises on a token such as a lone "-".
- The spline tests' golden coefficient files and their 10-decimal comparisons of computed splines are not modelled. `assertAlmostEqual` is modelled as an exact bound (|a - b|·10¹⁰ ≤ 0.5) rather than Python's float `round`.
- In `cycle_through_color_wheel`, the `numpy.arange` loop over float hues and the `ManimColor.from_hsv`/`to_hsv` conversions are not modelled: the element count of `arange` depends on float rounding. The argument checks and the step are modelled.
- `darker_or_brighter` takes and returns Manim colours; the model takes and returns HSV triples on Manim's scales. Its warnings and logging are not modelled.
- The `x_spacing` of `get_witch_of_agnesi_points_from_interval` is annotated as a float, but `range` accepts only integers, so the model takes an integer spacing.
- The `centered_point` path of `generate_generic_polynomial_equation` is not modelled: `format_to_parenthesis_if_negative` is not part of this model.
- `all_evaluated_points_x` and `all_evaluated_points_x_interval` (min and max of the x values) are not modelled separately. AllEvaluatedPointsValues lists the x values, from which both follow.
- `TestsSplines.__init__` (helper_functions/tests/point_interpolation_tests.py:39-41) sorts the shared `all_evaluated_points` list in place through an alias, so every later user of that list sees it sorted. That mutation is not modelled: the shared list is a value in its declared order, and SortedAllEvaluatedPoints is the separate ascending copy.
- The aliasing write through `INTERPOLATION_DEFAULT_AXES_INTERVAL` into `DEFAULT_AXES_INTERVALS` is not modelled; it only touches axis settings.
- SharedConstants.SortedAllEvaluatedPoints is characterised, not computed by a sorting algorithm. It is the ascending rearrangement of the points, proved to be the only one.
- Points of other than two components, and unpacking errors, are not modelled: a point is a pair of reals.
- π is a parameter; the knob properties hold for any π > 0.
- The knob's drawing, value text and everything of `Knob.__init__` beyond the two defaults are not modelled.
- All manim scenes, slides, logging and the command-line rendering script are outside this model.
