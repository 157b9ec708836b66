/** helper_functions/matrix_utilities.py: transposing a matrix given as a list of rows. */
module MatrixUtilities {
  import opened Wrappers

  /** Every row has exactly `cols` entries. */
  predicate Rectangular<T>(m: seq<seq<T>>, cols: nat) {
    forall i :: 0 <= i < |m| ==> |m[i]| == cols
  }

  /** Every row has at least `cols` entries. */
  predicate AtLeastColumns<T>(m: seq<seq<T>>, cols: nat) {
    forall i :: 0 <= i < |m| ==> |m[i]| >= cols
  }

  /** The first `cols` columns of `m`, each read top to bottom, as rows. */
  function TransposeOf<T>(m: seq<seq<T>>, cols: nat): (t: seq<seq<T>>)
    requires AtLeastColumns(m, cols)
    ensures |t| == cols && Rectangular(t, |m|)
    ensures forall a, b :: 0 <= a < cols && 0 <= b < |m| ==> t[a][b] == m[b][a]
  {
    seq(cols, a requires 0 <= a < cols => seq(|m|, b requires 0 <= b < |m| => m[b][a]))
  }

  /** `transpose_matrix(entries)` (helper_functions/matrix_utilities.py:7-22). `entries[0]`
      fixes the number of columns, so an empty list fails with IndexError, and so does any
      later row shorter than the first; longer rows have their extra entries ignored. */
  method TransposeMatrix<T>(entries: seq<seq<T>>) returns (r: Result<seq<seq<T>>>)
    ensures r.Err? <==> |entries| == 0 || exists b :: 0 <= b < |entries| && |entries[b]| < |entries[0]|
    ensures r.Err? ==> r.error == IndexError
    ensures r.Ok? ==> |r.value| == |entries[0]| && Rectangular(r.value, |entries|)
    ensures r.Ok? ==> forall a, b :: 0 <= a < |r.value| && 0 <= b < |entries| ==> r.value[a][b] == entries[b][a]
  {
    if |entries| == 0 {
      return Err(IndexError);
    }
    var transposed: seq<seq<T>> := [];
    var numberOfColumns := |entries[0]|;
    var numberOfRows := |entries|;
    var a := 0;
    while a < numberOfColumns
      invariant 0 <= a <= numberOfColumns
      invariant |transposed| == a && Rectangular(transposed, numberOfRows)
      invariant AtLeastColumns(entries, a)
      invariant forall i, b :: 0 <= i < a && 0 <= b < numberOfRows ==> transposed[i][b] == entries[b][i]
    {
      var row: seq<T> := [];
      var b := 0;
      while b < numberOfRows
        invariant 0 <= b <= numberOfRows
        invariant |row| == b
        invariant forall j :: 0 <= j < b ==> |entries[j]| > a && row[j] == entries[j][a]
      {
        if a >= |entries[b]| {
          return Err(IndexError);
        }
        row := row + [entries[b][a]];
        b := b + 1;
      }
      transposed := transposed + [row];
      a := a + 1;
    }
    return Ok(transposed);
  }

  /** Transposing a non-empty rectangular matrix with non-empty rows twice gives it back. */
  lemma TransposeTwice<T>(m: seq<seq<T>>, cols: nat)
    requires Rectangular(m, cols) && |m| > 0 && cols > 0
    ensures TransposeOf(TransposeOf(m, cols), |m|) == m
  {
    var t := TransposeOf(m, cols);
    var tt := TransposeOf(t, |m|);
    assert |tt| == |m|;
    forall b | 0 <= b < |m|
      ensures tt[b] == m[b]
    {
      assert |tt[b]| == cols == |m[b]|;
    }
  }
}
