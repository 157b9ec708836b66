/** Polynomials as coefficient lists, lowest power first (the order `interpolate_over` and the
    spline functions of helper_functions/point_interpolation.py return them in). */
module Polynomial {
  import opened LinearAlgebra

  /** t raised to the natural power i, with t⁰ = 1 (as Python's `**` gives, 0⁰ included). */
  function Pow(t: real, i: nat): real {
    if i == 0 then 1.0 else Pow(t, i - 1) * t
  }

  /** Σᵢ c[i]·tⁱ; the empty list is the zero polynomial. */
  function PolyEval(c: seq<real>, t: real): real {
    if |c| == 0 then 0.0 else PolyEval(c[..|c| - 1], t) + c[|c| - 1] * Pow(t, |c| - 1)
  }

  /** [1, t, t², …, t^(w−1)]: one row of a Vandermonde matrix. */
  function PowerRow(t: real, w: nat): (row: seq<real>)
    ensures |row| == w && forall i :: 0 <= i < w ==> row[i] == Pow(t, i)
  {
    seq(w, i requires 0 <= i < w => Pow(t, i))
  }

  /** The coefficients of the derivative: i·c[i] becomes the coefficient of t^(i−1). */
  function Derivative(c: seq<real>): (d: seq<real>)
    ensures |d| == if |c| == 0 then 0 else |c| - 1
    ensures forall i :: 0 <= i < |d| ==> d[i] == (i + 1) as real * c[i + 1]
  {
    if |c| == 0 then [] else seq(|c| - 1, i requires 0 <= i < |c| - 1 => (i + 1) as real * c[i + 1])
  }

  function Reverse<T>(s: seq<T>): (r: seq<T>)
    ensures |r| == |s| && forall i :: 0 <= i < |s| ==> r[i] == s[|s| - 1 - i]
  {
    seq(|s|, i requires 0 <= i < |s| => s[|s| - 1 - i])
  }

  lemma ReverseReverse<T>(s: seq<T>)
    ensures Reverse(Reverse(s)) == s
  {
  }

  /** A row of powers of t dotted with the coefficients evaluates the polynomial at t. */
  lemma {:induction false} DotPowerRow(t: real, c: seq<real>)
    ensures Dot(PowerRow(t, |c|), c) == PolyEval(c, t)
    decreases |c|
  {
    if |c| > 0 {
      var n := |c| - 1;
      assert PowerRow(t, |c|)[..n] == PowerRow(t, n);
      DotPowerRow(t, c[..n]);
    }
  }

  /** A cubic c[0] + c[1]·t + c[2]·t² + c[3]·t³, written out. */
  lemma CubicEval(c: seq<real>, t: real)
    requires |c| == 4
    ensures PolyEval(c, t) == c[0] + c[1] * t + c[2] * Pow(t, 2) + c[3] * Pow(t, 3)
  {
    assert c[..3][..2] == c[..2] && c[..2][..1] == c[..1] && c[..1][..0] == [];
    assert Pow(t, 1) == t;
    assert PolyEval(c[..1], t) == c[0];
    assert PolyEval(c[..2], t) == c[0] + c[1] * t;
    assert PolyEval(c[..3], t) == c[0] + c[1] * t + c[2] * Pow(t, 2);
  }

  /** The slope of a cubic: c[1] + 2·c[2]·t + 3·c[3]·t². */
  lemma CubicSlope(c: seq<real>, t: real)
    requires |c| == 4
    ensures PolyEval(Derivative(c), t) == c[1] + 2.0 * c[2] * t + 3.0 * c[3] * Pow(t, 2)
  {
    var d := Derivative(c);
    assert |d| == 3 && d[0] == c[1] && d[1] == 2.0 * c[2] && d[2] == 3.0 * c[3];
    assert d[..2][..1] == d[..1] && d[..1][..0] == [];
    assert Pow(t, 1) == t;
    assert PolyEval(d[..1], t) == c[1];
    assert PolyEval(d[..2], t) == c[1] + 2.0 * c[2] * t;
  }

  /** The curvature of a cubic: 2·c[2] + 6·c[3]·t. */
  lemma CubicCurvature(c: seq<real>, t: real)
    requires |c| == 4
    ensures PolyEval(Derivative(Derivative(c)), t) == 2.0 * c[2] + 6.0 * c[3] * t
  {
    var d := Derivative(Derivative(c));
    assert |d| == 2 && d[0] == 2.0 * c[2] && d[1] == 6.0 * c[3];
    assert d[..1][..0] == [];
    assert Pow(t, 1) == t;
    assert PolyEval(d[..1], t) == 2.0 * c[2];
  }
}

/** Polynomials with the variable moved: the coefficients of t ↦ c(t + m), as a fit around
    a center m relates to the fit around 0. Values are taken at x − m, so that the power
    being matched is always a power of the variable x. */
module PolynomialShift {
  import opened LinearAlgebra
  import opened Polynomial

  /** Evaluation is linear: the sum of two coefficient lists evaluates to the sum. */
  lemma {:induction false} PolyEvalAdd(u: seq<real>, v: seq<real>, t: real)
    requires |u| == |v|
    ensures PolyEval(Add(u, v), t) == PolyEval(u, t) + PolyEval(v, t)
    decreases |u|
  {
    if |u| > 0 {
      var n := |u| - 1;
      assert Add(u, v)[..n] == Add(u[..n], v[..n]);
      PolyEvalAdd(u[..n], v[..n], t);
    }
  }

  /** Evaluation is linear: scaling the coefficients scales the value. */
  lemma PolyEvalScale(k: real, u: seq<real>, t: real)
    ensures PolyEval(Scale(k, u), t) == PolyEval(u, t) * k
  {
    DotPowerRow(t, Scale(k, u));
    DotPowerRow(t, u);
    DotScale(PowerRow(t, |u|), k, u);
  }

  /** A zero coefficient for a new highest power changes nothing. */
  lemma PolyEvalPadded(u: seq<real>, t: real)
    ensures PolyEval(u + [0.0], t) == PolyEval(u, t)
  {
    assert (u + [0.0])[..|u|] == u;
  }

  /** A zero constant term in front raises every power by one: the value is multiplied by t. */
  lemma {:induction false} PolyEvalRaised(u: seq<real>, t: real)
    ensures PolyEval([0.0] + u, t) == t * PolyEval(u, t)
    decreases |u|
  {
    if |u| == 0 {
      assert [0.0] + u == [0.0];
      assert PolyEval([0.0], t) == PolyEval([], t) + 0.0 * Pow(t, 0);
    } else {
      var n := |u| - 1;
      assert ([0.0] + u)[..n + 1] == [0.0] + u[..n];
      PolyEvalRaised(u[..n], t);
      assert PolyEval([0.0] + u, t) == t * PolyEval(u[..n], t) + u[n] * (Pow(t, n) * t);
    }
  }

  /** The coefficients of (t + m)^k, lowest power first: k + 1 of them, the highest being 1. */
  function ShiftedPower(k: nat, m: real): (r: seq<real>)
    ensures |r| == k + 1 && r[k] == 1.0
  {
    if k == 0 then [1.0] else TimesShift(ShiftedPower(k - 1, m), m)
  }

  /** The coefficients of p(t)·(t + m): p raised by one power plus m times p. */
  function TimesShift(p: seq<real>, m: real): (r: seq<real>)
    ensures |r| == |p| + 1
  {
    Add([0.0] + p, Scale(m, p + [0.0]))
  }

  /** The coefficients of (t + m)^k evaluate at t = x − m to x^k. */
  lemma {:induction false} ShiftedPowerEval(k: nat, m: real, x: real)
    ensures PolyEval(ShiftedPower(k, m), x - m) == Pow(x, k)
    decreases k
  {
    if k == 0 {
      PolyEvalOne(x - m);
    } else {
      ShiftedPowerEval(k - 1, m, x);
      TimesShiftPower(ShiftedPower(k - 1, m), ShiftedPower(k, m), m, x, k);
    }
  }

  /** If p evaluates at x − m to x^(k−1), then TimesShift(p, m) evaluates there to x^k. */
  lemma TimesShiftPower(p: seq<real>, q: seq<real>, m: real, x: real, k: nat)
    requires k > 0 && q == TimesShift(p, m) && PolyEval(p, x - m) == Pow(x, k - 1)
    ensures PolyEval(q, x - m) == Pow(x, k)
  {
    TimesShiftEval(p, q, m, x);
  }

  /** The constant polynomial 1. */
  lemma PolyEvalOne(t: real)
    ensures PolyEval([1.0], t) == 1.0
  {
    assert [1.0][..0] == [];
  }

  /** TimesShift multiplies the polynomial's value at x − m by x. */
  lemma TimesShiftEval(p: seq<real>, q: seq<real>, m: real, x: real)
    requires q == TimesShift(p, m)
    ensures PolyEval(q, x - m) == PolyEval(p, x - m) * x
  {
    TimesShiftTerms(p, m, x - m);
    Distribute(PolyEval(p, x - m), m, x);
  }

  /** The value of TimesShift(p, m) at t is t·p(t) + p(t)·m, by the linearity laws. */
  lemma TimesShiftTerms(p: seq<real>, m: real, t: real)
    ensures PolyEval(TimesShift(p, m), t) == t * PolyEval(p, t) + PolyEval(p, t) * m
  {
    PolyEvalAdd([0.0] + p, Scale(m, p + [0.0]), t);
    PolyEvalRaised(p, t);
    PolyEvalScale(m, p + [0.0], t);
    PolyEvalPadded(p, t);
  }

  lemma Distribute(v: real, m: real, x: real)
    ensures (x - m) * v + v * m == v * x
  {
  }

  /** `TaylorShift(c, m)`: the coefficients of the polynomial t ↦ c(t + m). Each c[i] adds
      c[i] times the coefficients of (t + m)^i. */
  function TaylorShift(c: seq<real>, m: real): (d: seq<real>)
    ensures |d| == |c|
    ensures |c| > 0 ==> d[|c| - 1] == c[|c| - 1]
  {
    if |c| == 0 then []
    else Add(TaylorShift(c[..|c| - 1], m) + [0.0], Scale(c[|c| - 1], ShiftedPower(|c| - 1, m)))
  }

  /** The shifted coefficients evaluated at x − m give c's value at x. */
  lemma {:induction false} TaylorShiftEval(c: seq<real>, m: real, x: real)
    ensures PolyEval(TaylorShift(c, m), x - m) == PolyEval(c, x)
    decreases |c|
  {
    if |c| > 0 {
      TaylorShiftEval(c[..|c| - 1], m, x);
      TaylorShiftNext(c, TaylorShift(c[..|c| - 1], m), TaylorShift(c, m), m, x);
    }
  }

  /** TaylorShiftEval at a point z = y − m named by the caller. */
  lemma TaylorShiftAt(c: seq<real>, d: seq<real>, m: real, y: real, z: real)
    requires d == TaylorShift(c, m) && z == y - m
    ensures PolyEval(d, z) == PolyEval(c, y)
  {
    TaylorShiftEval(c, m, y);
  }

  /** The shifted coefficients describe c with the variable moved by m, at every x. */
  lemma TaylorShiftEverywhere(c: seq<real>, m: real)
    ensures forall x :: PolyEval(TaylorShift(c, m), x - m) == PolyEval(c, x)
  {
    forall x
      ensures PolyEval(TaylorShift(c, m), x - m) == PolyEval(c, x)
    {
      TaylorShiftEval(c, m, x);
    }
  }

  /** If the shift of c without its highest coefficient is right at x, so is the shift of c. */
  lemma TaylorShiftNext(c: seq<real>, r: seq<real>, d: seq<real>, m: real, x: real)
    requires |c| > 0 && r == TaylorShift(c[..|c| - 1], m) && d == TaylorShift(c, m)
    requires PolyEval(r, x - m) == PolyEval(c[..|c| - 1], x)
    ensures PolyEval(d, x - m) == PolyEval(c, x)
  {
    ShiftedPowerEval(|c| - 1, m, x);
    TaylorStep(c, r, ShiftedPower(|c| - 1, m), x - m, x);
  }

  /** Adding the highest coefficient's term: if r(t) is c's value at x without its highest
      term and q(t) = x^(|c|−1), then r with c's highest coefficient times q added is c(x). */
  lemma TaylorStep(c: seq<real>, r: seq<real>, q: seq<real>, t: real, x: real)
    requires |c| > 0 && |q| == |r| + 1
    requires PolyEval(q, t) == Pow(x, |c| - 1) && PolyEval(r, t) == PolyEval(c[..|c| - 1], x)
    ensures PolyEval(Add(r + [0.0], Scale(c[|c| - 1], q)), t) == PolyEval(c, x)
  {
    PolyEvalAdd(r + [0.0], Scale(c[|c| - 1], q), t);
    PolyEvalPadded(r, t);
    PolyEvalScale(c[|c| - 1], q, t);
    PolyEvalLast(c, x);
    assert PolyEval(q, t) * c[|c| - 1] == c[|c| - 1] * Pow(x, |c| - 1);
  }

  /** The highest term of c, split off. */
  lemma PolyEvalLast(c: seq<real>, x: real)
    requires |c| > 0
    ensures PolyEval(c, x) == PolyEval(c[..|c| - 1], x) + c[|c| - 1] * Pow(x, |c| - 1)
  {
  }

  /** A zero highest coefficient shifts to a zero highest coefficient, the rest unchanged. */
  lemma TaylorShiftPadded(c: seq<real>, m: real)
    requires |c| > 0 && c[|c| - 1] == 0.0
    ensures TaylorShift(c, m) == TaylorShift(c[..|c| - 1], m) + [0.0]
  {
    var q := ShiftedPower(|c| - 1, m);
    var r := TaylorShift(c[..|c| - 1], m);
    assert Scale(c[|c| - 1], q) == Zeros(|q|);
  }

  /** Only the zero polynomial shifts to the zero polynomial. */
  lemma {:induction false} TaylorShiftZero(c: seq<real>, m: real)
    requires TaylorShift(c, m) == Zeros(|c|)
    ensures c == Zeros(|c|)
    decreases |c|
  {
    if |c| > 0 {
      TaylorShiftPadded(c, m);
      PaddedZeros(TaylorShift(c[..|c| - 1], m));
      TaylorShiftZero(c[..|c| - 1], m);
      PaddedZeros(c[..|c| - 1]);
    }
  }

  /** r followed by a zero is all zeros exactly when r is. */
  lemma PaddedZeros(r: seq<real>)
    ensures r + [0.0] == Zeros(|r| + 1) <==> r == Zeros(|r|)
  {
    if r + [0.0] == Zeros(|r| + 1) {
      forall i | 0 <= i < |r|
        ensures r[i] == 0.0
      {
        assert r[i] == (r + [0.0])[i];
      }
    }
  }

  /** The constant coefficient is the value at 0. */
  lemma {:induction false} PolyEvalAtZero(c: seq<real>)
    requires |c| > 0
    ensures PolyEval(c, 0.0) == c[0]
    decreases |c|
  {
    if |c| > 1 {
      PolyEvalAtZero(c[..|c| - 1]);
      assert Pow(0.0, |c| - 1) == Pow(0.0, |c| - 2) * 0.0;
    }
  }

  /** A polynomial with no more coefficients than it has distinct roots is the zero list:
      shifting one root to 0 factors out the variable, which leaves a polynomial with one
      coefficient fewer vanishing at the other roots. */
  lemma {:induction false} RootsZero(c: seq<real>, xs: seq<real>)
    requires |c| <= |xs|
    requires forall a, b :: 0 <= a < b < |xs| ==> xs[a] != xs[b]
    requires forall a :: 0 <= a < |xs| ==> PolyEval(c, xs[a]) == 0.0
    ensures c == Zeros(|c|)
    decreases |c|
  {
    if |c| > 0 {
      var r := xs[|xs| - 1];
      var d := TaylorShift(c, r);
      var ys := seq(|xs| - 1, a requires 0 <= a < |xs| - 1 => xs[a] - r);
      RootMovedToZero(c, d, r);
      MovedDistinct(xs, ys);
      MovedRoots(c, xs, d, ys);
      RootsZero(d[1..], ys);
      assert d == [0.0] + d[1..];
      TaylorShiftZero(c, r);
    }
  }

  /** The roots other than the last, moved by the last, are still distinct. */
  lemma MovedDistinct(xs: seq<real>, ys: seq<real>)
    requires |xs| > 0 && forall a, b :: 0 <= a < b < |xs| ==> xs[a] != xs[b]
    requires ys == seq(|xs| - 1, a requires 0 <= a < |xs| - 1 => xs[a] - xs[|xs| - 1])
    ensures forall a, b :: 0 <= a < b < |ys| ==> ys[a] != ys[b]
  {
  }

  /** The roots other than the last r, moved by r, are roots of the shift by r without its
      zero constant coefficient. */
  lemma MovedRoots(c: seq<real>, xs: seq<real>, d: seq<real>, ys: seq<real>)
    requires |c| > 0 && |xs| > 0
    requires forall a, b :: 0 <= a < b < |xs| ==> xs[a] != xs[b]
    requires forall a :: 0 <= a < |xs| ==> PolyEval(c, xs[a]) == 0.0
    requires d == TaylorShift(c, xs[|xs| - 1]) && d[0] == 0.0
    requires ys == seq(|xs| - 1, a requires 0 <= a < |xs| - 1 => xs[a] - xs[|xs| - 1])
    ensures forall a :: 0 <= a < |ys| ==> PolyEval(d[1..], ys[a]) == 0.0
  {
    forall a | 0 <= a < |ys|
      ensures PolyEval(d[1..], ys[a]) == 0.0
    {
      OtherRootMoved(c, d, xs[|xs| - 1], xs[a], ys[a]);
    }
  }

  /** A root r of c, moved to 0, makes the constant coefficient of the shift zero. */
  lemma RootMovedToZero(c: seq<real>, d: seq<real>, r: real)
    requires |c| > 0 && PolyEval(c, r) == 0.0 && d == TaylorShift(c, r)
    ensures d[0] == 0.0
  {
    TaylorShiftEval(c, r, r);
    PolyEvalAtZero(d);
  }

  /** Another root x ≠ r of c is, moved by r, a root of the shift without its zero constant
      coefficient. */
  lemma OtherRootMoved(c: seq<real>, d: seq<real>, r: real, x: real, y: real)
    requires |c| > 0 && d == TaylorShift(c, r) && d[0] == 0.0
    requires PolyEval(c, x) == 0.0 && x != r && y == x - r
    ensures PolyEval(d[1..], y) == 0.0
  {
    TaylorShiftEval(c, r, x);
    RaisedRoot(d, y);
  }

  /** A non-zero root t of a polynomial with zero constant coefficient is a root of the
      polynomial with that coefficient dropped. */
  lemma RaisedRoot(d: seq<real>, t: real)
    requires |d| > 0 && d[0] == 0.0 && PolyEval(d, t) == 0.0 && t != 0.0
    ensures PolyEval(d[1..], t) == 0.0
  {
    assert d == [0.0] + d[1..];
    PolyEvalRaised(d[1..], t);
    ProductZero(t, PolyEval(d[1..], t));
  }

  /** A product of a non-zero factor is zero only when the other factor is. */
  lemma ProductZero(t: real, v: real)
    requires t != 0.0 && t * v == 0.0
    ensures v == 0.0
  {
  }
}
