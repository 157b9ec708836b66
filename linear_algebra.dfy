/** The dense linear algebra the interpolation code borrows from numpy (`transpose`, `matmul`,
    `linalg.solve`), over real vectors and matrices given as lists of rows. */
module LinearAlgebra {
  import opened Wrappers
  import opened MatrixUtilities
  import opened MathFunctions

  type Vector = seq<real>
  type Matrix = seq<seq<real>>

  function Dot(u: Vector, v: Vector): real
    requires |u| == |v|
    decreases |u|
  {
    if |u| == 0 then 0.0 else Dot(u[..|u| - 1], v[..|v| - 1]) + u[|u| - 1] * v[|v| - 1]
  }

  function SqNorm(v: Vector): real {
    Dot(v, v)
  }

  function Zeros(n: nat): (z: Vector)
    ensures |z| == n && forall i :: 0 <= i < n ==> z[i] == 0.0
  {
    seq(n, _ => 0.0)
  }

  function Add(u: Vector, v: Vector): (w: Vector)
    requires |u| == |v|
    ensures |w| == |u| && forall i :: 0 <= i < |u| ==> w[i] == u[i] + v[i]
  {
    seq(|u|, i requires 0 <= i < |u| => u[i] + v[i])
  }

  function Sub(u: Vector, v: Vector): (w: Vector)
    requires |u| == |v|
    ensures |w| == |u| && forall i :: 0 <= i < |u| ==> w[i] == u[i] - v[i]
  {
    seq(|u|, i requires 0 <= i < |u| => u[i] - v[i])
  }

  function Scale(k: real, v: Vector): (w: Vector)
    ensures |w| == |v| && forall i :: 0 <= i < |v| ==> w[i] == k * v[i]
  {
    seq(|v|, i requires 0 <= i < |v| => k * v[i])
  }

  /** A·v: one dot product per row of A. */
  function MatVec(A: Matrix, v: Vector): (w: Vector)
    requires Rectangular(A, |v|)
    ensures |w| == |A|
  {
    seq(|A|, i requires 0 <= i < |A| => Dot(A[i], v))
  }

  /** P·Q for Q with m columns: row i of the product is Qᵀ·P[i]. */
  function MatMul(P: Matrix, Q: Matrix, m: nat): (R: Matrix)
    requires Rectangular(P, |Q|) && Rectangular(Q, m)
    ensures |R| == |P| && Rectangular(R, m)
  {
    seq(|P|, i requires 0 <= i < |P| => MatVec(TransposeOf(Q, m), P[i]))
  }

  predicate IsSquare(A: Matrix) {
    Rectangular(A, |A|)
  }

  /** Some non-zero vector is sent to zero, so A·c = b has no unique solution. */
  ghost predicate Singular(A: Matrix)
    requires IsSquare(A)
  {
    exists k: Vector :: |k| == |A| && k != Zeros(|A|) && MatVec(A, k) == Zeros(|A|)
  }

  /** What `numpy.linalg.solve(A, b)` promises for one pair of arguments: it returns a
      solution exactly when A is a non-empty, square, non-singular matrix with as many rows
      as b has entries, and raises LinAlgError otherwise (when the lengths agree). */
  ghost predicate SolvesCorrectly(solve: (Matrix, Vector) -> Result<Vector>, A: Matrix, b: Vector) {
    && (solve(A, b).Ok? <==> |A| > 0 && IsSquare(A) && |b| == |A| && !Singular(A))
    && (solve(A, b).Ok? ==> |solve(A, b).value| == |A| && MatVec(A, solve(A, b).value) == b)
    && (solve(A, b).Err? && |b| == |A| ==> solve(A, b).error == LinAlgError)
  }

  /** `solve` behaves as `numpy.linalg.solve` does on every input. */
  ghost predicate IsLinearSolver(solve: (Matrix, Vector) -> Result<Vector>) {
    forall A: Matrix, b: Vector :: SolvesCorrectly(solve, A, b)
  }

  /** A dot product of two 2-vectors, written out. */
  lemma Dot2(u: Vector, v: Vector)
    requires |u| == |v| == 2
    ensures Dot(u, v) == u[0] * v[0] + u[1] * v[1]
  {
    assert u[..1][..0] == [] && v[..1][..0] == [];
    assert Dot(u[..1], v[..1]) == u[0] * v[0];
  }

  /** A dot product splits over a concatenation of the left operand. */
  lemma {:induction false} DotAppend(u1: Vector, u2: Vector, v: Vector)
    requires |u1| + |u2| == |v|
    ensures Dot(u1 + u2, v) == Dot(u1, v[..|u1|]) + Dot(u2, v[|u1|..])
    decreases |u2|
  {
    if |u2| == 0 {
      assert u1 + u2 == u1 && v[..|u1|] == v;
    } else {
      var n := |u2| - 1;
      assert (u1 + u2)[..|u1 + u2| - 1] == u1 + u2[..n];
      assert v[..|v| - 1][..|u1|] == v[..|u1|];
      assert v[..|v| - 1][|u1|..] == v[|u1|..][..n];
      DotAppend(u1, u2[..n], v[..|v| - 1]);
    }
  }

  /** A dot product of two 4-vectors, written out. */
  lemma Dot4(u: Vector, v: Vector)
    requires |u| == |v| == 4
    ensures Dot(u, v) == u[0] * v[0] + u[1] * v[1] + u[2] * v[2] + u[3] * v[3]
  {
    assert u[..3][..2] == u[..2] && v[..3][..2] == v[..2];
    Dot2(u[..2], v[..2]);
    assert Dot(u[..3], v[..3]) == u[0] * v[0] + u[1] * v[1] + u[2] * v[2];
  }

  lemma {:induction false} DotSymmetric(u: Vector, v: Vector)
    requires |u| == |v|
    ensures Dot(u, v) == Dot(v, u)
    decreases |u|
  {
    if |u| > 0 {
      DotSymmetric(u[..|u| - 1], v[..|v| - 1]);
    }
  }

  lemma {:induction false} DotAdd(u: Vector, v: Vector, w: Vector)
    requires |u| == |v| == |w|
    ensures Dot(u, Add(v, w)) == Dot(u, v) + Dot(u, w)
    decreases |u|
  {
    if |u| > 0 {
      var n := |u| - 1;
      assert Add(v, w)[..n] == Add(v[..n], w[..n]);
      DotAdd(u[..n], v[..n], w[..n]);
    }
  }

  lemma {:induction false} DotSub(u: Vector, v: Vector, w: Vector)
    requires |u| == |v| == |w|
    ensures Dot(u, Sub(v, w)) == Dot(u, v) - Dot(u, w)
    decreases |u|
  {
    if |u| > 0 {
      var n := |u| - 1;
      assert Sub(v, w)[..n] == Sub(v[..n], w[..n]);
      DotSub(u[..n], v[..n], w[..n]);
    }
  }

  lemma {:induction false} DotScale(u: Vector, k: real, v: Vector)
    requires |u| == |v|
    ensures Dot(u, Scale(k, v)) == Dot(u, v) * k
    decreases |u|
  {
    if |u| > 0 {
      var n := |u| - 1;
      forall i | 0 <= i < n
        ensures Scale(k, v)[..n][i] == Scale(k, v[..n])[i]
      {
      }
      assert Scale(k, v)[..n] == Scale(k, v[..n]);
      DotScale(u[..n], k, v[..n]);
    }
  }

  lemma {:induction false} DotZeros(u: Vector)
    ensures Dot(u, Zeros(|u|)) == 0.0
    decreases |u|
  {
    if |u| > 0 {
      assert Zeros(|u|)[..|u| - 1] == Zeros(|u| - 1);
      DotZeros(u[..|u| - 1]);
    }
  }

  lemma {:induction false} SqNormNonNegative(v: Vector)
    ensures SqNorm(v) >= 0.0
    decreases |v|
  {
    if |v| > 0 {
      SqNormNonNegative(v[..|v| - 1]);
      SquareSign(v[|v| - 1]);
    }
  }

  /** |u + g|² = |u|² + 2·u·g + |g|². */
  lemma SqNormOfSum(u: Vector, g: Vector)
    requires |u| == |g|
    ensures SqNorm(Add(u, g)) == SqNorm(u) + 2.0 * Dot(u, g) + SqNorm(g)
  {
    var s := Add(u, g);
    DotSymmetric(s, u);
    DotSymmetric(s, g);
    DotAdd(s, u, g);
    DotAdd(u, u, g);
    DotAdd(g, u, g);
    DotSymmetric(g, u);
  }

  /** A·(v − w) = A·v − A·w. */
  lemma MatVecSub(A: Matrix, v: Vector, w: Vector)
    requires |v| == |w| && Rectangular(A, |v|)
    ensures MatVec(A, Sub(v, w)) == Sub(MatVec(A, v), MatVec(A, w))
  {
    forall i | 0 <= i < |A|
      ensures MatVec(A, Sub(v, w))[i] == Sub(MatVec(A, v), MatVec(A, w))[i]
    {
      DotSub(A[i], v, w);
    }
  }

  /** Aᵀ·w splits into the part from all rows but the last, plus w's last entry times the
      last row. */
  lemma TransposeMatVecLastRow(A: Matrix, cols: nat, w: Vector)
    requires Rectangular(A, cols) && |w| == |A| > 0
    ensures MatVec(TransposeOf(A, cols), w)
         == Add(MatVec(TransposeOf(A[..|A| - 1], cols), w[..|A| - 1]), Scale(w[|A| - 1], A[|A| - 1]))
  {
    var n := |A| - 1;
    var T, T' := TransposeOf(A, cols), TransposeOf(A[..n], cols);
    forall j | 0 <= j < cols
      ensures MatVec(T, w)[j] == Add(MatVec(T', w[..n]), Scale(w[n], A[n]))[j]
    {
      assert T[j][..n] == T'[j];
    }
  }

  /** The transpose is the adjoint: (A·v)·w = v·(Aᵀ·w). */
  lemma {:induction false} Adjoint(A: Matrix, cols: nat, v: Vector, w: Vector)
    requires Rectangular(A, cols) && |v| == cols && |w| == |A|
    ensures Dot(MatVec(A, v), w) == Dot(v, MatVec(TransposeOf(A, cols), w))
    decreases |A|
  {
    if |A| == 0 {
      assert MatVec(TransposeOf(A, cols), w) == Zeros(cols);
      DotZeros(v);
    } else {
      MatVecLastRow(A, v, w);
      TransposeDotLastRow(A, cols, v, w);
      DotScale(v, w[|A| - 1], A[|A| - 1]);
      DotSymmetric(v, A[|A| - 1]);
      Adjoint(A[..|A| - 1], cols, v, w[..|A| - 1]);
    }
  }

  /** v·(Aᵀ·w) splits into the part from all rows but the last, plus v's dot product with the
      last row scaled by w's last entry. */
  lemma TransposeDotLastRow(A: Matrix, cols: nat, v: Vector, w: Vector)
    requires Rectangular(A, cols) && |v| == cols && |w| == |A| > 0
    ensures Dot(v, MatVec(TransposeOf(A, cols), w))
         == Dot(v, MatVec(TransposeOf(A[..|A| - 1], cols), w[..|A| - 1])) + Dot(v, Scale(w[|A| - 1], A[|A| - 1]))
  {
    TransposeMatVecLastRow(A, cols, w);
    DotOfSum(v, MatVec(TransposeOf(A, cols), w), MatVec(TransposeOf(A[..|A| - 1], cols), w[..|A| - 1]),
             Scale(w[|A| - 1], A[|A| - 1]));
  }

  /** A vector that is the sum of two others has, with v, the sum of their dot products. */
  lemma DotOfSum(v: Vector, x: Vector, y: Vector, z: Vector)
    requires |v| == |x| == |y| == |z| && x == Add(y, z)
    ensures Dot(v, x) == Dot(v, y) + Dot(v, z)
  {
    DotAdd(v, y, z);
  }

  /** (A·v)·w splits into the part from all rows but the last, plus the last row's product
      with v times w's last entry. */
  lemma MatVecLastRow(A: Matrix, v: Vector, w: Vector)
    requires Rectangular(A, |v|) && |w| == |A| > 0
    ensures Dot(MatVec(A, v), w) == Dot(MatVec(A[..|A| - 1], v), w[..|A| - 1]) + Dot(A[|A| - 1], v) * w[|A| - 1]
  {
    assert MatVec(A, v)[..|A| - 1] == MatVec(A[..|A| - 1], v);
  }

  /** (P·Q)·c = P·(Q·c). */
  lemma MatMulVec(P: Matrix, Q: Matrix, m: nat, c: Vector)
    requires Rectangular(P, |Q|) && Rectangular(Q, m) && |c| == m
    ensures MatVec(MatMul(P, Q, m), c) == MatVec(P, MatVec(Q, c))
  {
    forall i | 0 <= i < |P|
      ensures MatVec(MatMul(P, Q, m), c)[i] == MatVec(P, MatVec(Q, c))[i]
    {
      Adjoint(Q, m, c, P[i]);
      DotSymmetric(MatVec(TransposeOf(Q, m), P[i]), c);
      DotSymmetric(MatVec(Q, c), P[i]);
    }
  }

  /** The normal matrix AᵀA of the least-squares system. */
  function NormalMatrix(A: Matrix, cols: nat): (N: Matrix)
    requires Rectangular(A, cols)
    ensures |N| == cols && IsSquare(N)
  {
    MatMul(TransposeOf(A, cols), A, cols)
  }

  /** AᵀA is symmetric. */
  lemma NormalMatrixSymmetric(A: Matrix, cols: nat, i: nat, j: nat)
    requires Rectangular(A, cols) && i < cols && j < cols
    ensures NormalMatrix(A, cols)[i][j] == NormalMatrix(A, cols)[j][i]
  {
    var T := TransposeOf(A, cols);
    DotSymmetric(T[j], T[i]);
  }

  /** A solution of the normal equations AᵀA·c = Aᵀ·b minimises the squared residual
      |A·d − b|² over every d. */
  lemma NormalEquationsMinimise(A: Matrix, cols: nat, b: Vector, c: Vector, d: Vector)
    requires Rectangular(A, cols) && |b| == |A| && |c| == cols && |d| == cols
    requires MatVec(NormalMatrix(A, cols), c) == MatVec(TransposeOf(A, cols), b)
    ensures SqNorm(Sub(MatVec(A, c), b)) <= SqNorm(Sub(MatVec(A, d), b))
  {
    var T := TransposeOf(A, cols);
    var e := Sub(d, c);
    var u := MatVec(A, e);
    var g := Sub(MatVec(A, c), b);
    MatMulVec(T, A, cols, c);
    MatVecSub(T, MatVec(A, c), b);
    assert MatVec(T, g) == Zeros(cols);
    Adjoint(A, cols, e, g);
    DotZeros(e);
    MatVecSub(A, d, c);
    assert Add(u, g) == Sub(MatVec(A, d), b);
    SqNormOfSum(u, g);
    SqNormNonNegative(u);
  }

  /** Only the zero vector has squared norm 0. */
  lemma {:induction false} SqNormZero(v: Vector)
    requires SqNorm(v) == 0.0
    ensures v == Zeros(|v|)
    decreases |v|
  {
    if |v| > 0 {
      SqNormNonNegative(v[..|v| - 1]);
      SquareSign(v[|v| - 1]);
      assert SqNorm(v) == SqNorm(v[..|v| - 1]) + Sq(v[|v| - 1]);
      SqNormZero(v[..|v| - 1]);
      forall i | 0 <= i < |v|
        ensures v[i] == 0.0
      {
        if i < |v| - 1 {
          assert v[i] == v[..|v| - 1][i];
        }
      }
    }
  }

  /** Every matrix sends the zero vector to zero. */
  lemma MatVecZeros(A: Matrix, cols: nat)
    requires Rectangular(A, cols)
    ensures MatVec(A, Zeros(cols)) == Zeros(|A|)
  {
    forall i | 0 <= i < |A|
      ensures MatVec(A, Zeros(cols))[i] == 0.0
    {
      DotZeros(A[i]);
    }
  }

  /** AᵀA sends k to zero exactly when A does: kᵀAᵀA·k is |A·k|². */
  lemma NormalKernel(A: Matrix, cols: nat, k: Vector)
    requires Rectangular(A, cols) && |k| == cols
    ensures MatVec(NormalMatrix(A, cols), k) == Zeros(cols) <==> MatVec(A, k) == Zeros(|A|)
  {
    var T := TransposeOf(A, cols);
    var u := MatVec(A, k);
    MatMulVec(T, A, cols, k);
    if u == Zeros(|A|) {
      MatVecZeros(T, |A|);
    }
    if MatVec(T, u) == Zeros(cols) {
      Adjoint(A, cols, k, u);
      DotZeros(k);
      SqNormZero(u);
    }
  }

  /** c solves the normal equations exactly when its residual A·c − b is orthogonal to every
      column of A. */
  lemma NormalEquationsResidual(A: Matrix, cols: nat, b: Vector, c: Vector)
    requires Rectangular(A, cols) && |b| == |A| && |c| == cols
    ensures MatVec(NormalMatrix(A, cols), c) == MatVec(TransposeOf(A, cols), b)
        <==> MatVec(TransposeOf(A, cols), Sub(MatVec(A, c), b)) == Zeros(cols)
  {
    var T := TransposeOf(A, cols);
    MatMulVec(T, A, cols, c);
    MatVecSub(T, MatVec(A, c), b);
    SubZeros(MatVec(T, MatVec(A, c)), MatVec(T, b));
  }

  /** A vector orthogonal to every column of A is orthogonal to everything A produces. */
  lemma OrthogonalToImage(A: Matrix, cols: nat, w: Vector, r: Vector)
    requires Rectangular(A, cols) && |w| == cols && |r| == |A|
    requires MatVec(TransposeOf(A, cols), r) == Zeros(cols)
    ensures Dot(MatVec(A, w), r) == 0.0
  {
    Adjoint(A, cols, w, r);
    DotZeros(w);
  }

  /** When B·u lies in the image of A, and r is orthogonal to the columns of A, then
      u = Bᵀ·r is zero: |u|² = (B·u)·r = 0. */
  lemma SameImageOrthogonal(A: Matrix, B: Matrix, cols: nat, u: Vector, w: Vector, r: Vector)
    requires Rectangular(A, cols) && Rectangular(B, cols) && |A| == |B| == |r| && |w| == cols
    requires MatVec(TransposeOf(A, cols), r) == Zeros(cols)
    requires u == MatVec(TransposeOf(B, cols), r) && MatVec(A, w) == MatVec(B, u)
    ensures u == Zeros(cols)
  {
    OrthogonalToImage(A, cols, w, r);
    Adjoint(B, cols, u, r);
    SqNormZero(u);
  }

  /** u − v is zero exactly when u = v. */
  lemma SubZeros(u: Vector, v: Vector)
    requires |u| == |v|
    ensures Sub(u, v) == Zeros(|u|) <==> u == v
  {
    if Sub(u, v) == Zeros(|u|) {
      forall i | 0 <= i < |u|
        ensures u[i] == v[i]
      {
        assert Sub(u, v)[i] == 0.0;
      }
    }
  }

  /** A non-singular system has at most one solution. */
  lemma SolutionUnique(A: Matrix, c: Vector, d: Vector)
    requires IsSquare(A) && !Singular(A) && |c| == |A| && |d| == |A|
    requires MatVec(A, c) == MatVec(A, d)
    ensures c == d
  {
    MatVecSub(A, c, d);
    assert MatVec(A, Sub(c, d)) == Zeros(|A|);
    assert Sub(c, d) == Zeros(|A|);
    forall i | 0 <= i < |c|
      ensures c[i] == d[i]
    {
      assert Sub(c, d)[i] == 0.0;
    }
  }
}
