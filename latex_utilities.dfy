/** helper_functions/latex_utilities.py: assembling LaTeX source for a `cases` environment and
    for a matrix. */
module LatexUtilities {
  import opened Wrappers
  import opened GeneralUtilities

  /** The concatenation of a list of strings, in order. */
  function Concat(pieces: seq<string>): string {
    if |pieces| == 0 then "" else Concat(pieces[..|pieces| - 1]) + pieces[|pieces| - 1]
  }

  lemma {:induction false} ConcatAppend(a: seq<string>, b: seq<string>)
    ensures Concat(a + b) == Concat(a) + Concat(b)
    decreases |b|
  {
    if |b| == 0 {
      assert a + b == a;
    } else {
      assert (a + b)[..|a + b| - 1] == a + b[..|b| - 1];
      ConcatAppend(a, b[..|b| - 1]);
    }
  }

  // ----- create_cases (lines 23-57) -----

  const CasesBegin: string := "\\begin{cases}"
  const CasesEnd: string := "\\end{cases}"
  const LineBreak: string := "\\\\"

  /** The `equations` argument: one equation, or a list of them. */
  datatype Equations = One(equation: string) | Many(equations: seq<string>)

  /** What `create_cases` returns: the code as one string, or its pieces as a list. */
  datatype CasesOutput = Code(code: string) | Pieces(pieces: seq<string>)

  /** A single equation is treated as a list of one (lines 41-42). */
  function EquationList(equations: Equations): seq<string> {
    match equations
    case One(e) => [e]
    case Many(es) => es
  }

  /** Each equation followed by a LaTeX line break. */
  function Terminated(equations: seq<string>): (lines: seq<string>)
    ensures |lines| == |equations|
    ensures forall i :: 0 <= i < |equations| ==> lines[i] == equations[i] + LineBreak
  {
    seq(|equations|, i requires 0 <= i < |equations| => equations[i] + LineBreak)
  }

  /** The `cases` environment holding the equations, one per line. */
  function CasesCode(equations: seq<string>): string {
    CasesBegin + Concat(Terminated(equations)) + CasesEnd
  }

  /** `create_cases(equations, include_math_environment_start, return_list)`: the environment is
      opened, each equation is appended with a line break (both to the code and to the list of
      pieces), the environment is closed, the code is put between `$$` when asked (the
      default), and the list of pieces is returned instead when asked (not the default). */
  method CreateCases(equations: Equations, includeMathEnvironmentStart: Option<bool>, returnList: Option<bool>)
    returns (out: CasesOutput)
    ensures var es := EquationList(equations);
            if returnList.GetOr(false) then
              out == Pieces([CasesBegin] + Terminated(es) + [CasesEnd])
            else if includeMathEnvironmentStart.GetOr(true) then
              out == Code("$$" + CasesCode(es) + "$$")
            else
              out == Code(CasesCode(es))
  {
    var wrap := if includeMathEnvironmentStart.None? then true else includeMathEnvironmentStart.value;
    var asList := if returnList.None? then false else returnList.value;
    var es := if equations.One? then [equations.equation] else equations.equations;
    var allLatexEquations: seq<string> := [];
    var latexCode := CasesBegin;
    allLatexEquations := allLatexEquations + [latexCode];
    for i := 0 to |es|
      invariant latexCode == CasesBegin + Concat(Terminated(es[..i]))
      invariant allLatexEquations == [CasesBegin] + Terminated(es[..i])
    {
      var toAppend := es[i] + LineBreak;
      TerminatedSnoc(CasesBegin, es, i);
      latexCode := latexCode + toAppend;
      allLatexEquations := allLatexEquations + [toAppend];
    }
    assert es[..|es|] == es;
    latexCode := latexCode + CasesEnd;
    allLatexEquations := allLatexEquations + [CasesEnd];
    if wrap {
      latexCode := "$$" + latexCode + "$$";
    }
    if asList {
      return Pieces(allLatexEquations);
    }
    return Code(latexCode);
  }

  /** One more equation adds its terminated line to both the code and the pieces. */
  lemma TerminatedSnoc(head: string, equations: seq<string>, i: nat)
    requires i < |equations|
    ensures head + Concat(Terminated(equations[..i + 1]))
            == head + Concat(Terminated(equations[..i])) + (equations[i] + LineBreak)
    ensures [head] + Terminated(equations[..i + 1])
            == [head] + Terminated(equations[..i]) + [equations[i] + LineBreak]
  {
    var line := equations[i] + LineBreak;
    assert Terminated(equations[..i + 1]) == Terminated(equations[..i]) + [line];
    assert Terminated(equations[..i + 1])[..i] == Terminated(equations[..i]);
    AppendAssoc(head, Concat(Terminated(equations[..i])), line);
  }

  /** The list of pieces has one entry per equation plus the opening and closing lines, and
      joins to the unwrapped code, whatever the wrapping flag says. */
  lemma CasesPiecesJoin(equations: seq<string>)
    ensures |[CasesBegin] + Terminated(equations) + [CasesEnd]| == |equations| + 2
    ensures Concat([CasesBegin] + Terminated(equations) + [CasesEnd]) == CasesCode(equations)
  {
    ConcatAppend([CasesBegin] + Terminated(equations), [CasesEnd]);
    ConcatAppend([CasesBegin], Terminated(equations));
    assert Concat([CasesBegin]) == CasesBegin by {
      assert [CasesBegin][..0] == [];
    }
    assert Concat([CasesEnd]) == CasesEnd by {
      assert [CasesEnd][..0] == [];
    }
  }

  /** Equation i sits, followed by a line break, after the opening and the equations before
      it, and before the equations after it and the closing. */
  lemma CasesCodeLines(equations: seq<string>, i: nat)
    requires i < |equations|
    ensures CasesCode(equations)
         == CasesBegin + Concat(Terminated(equations[..i])) + equations[i] + LineBreak
            + Concat(Terminated(equations[i + 1..])) + CasesEnd
  {
    var lines := Terminated(equations);
    assert lines == Terminated(equations[..i]) + [lines[i]] + Terminated(equations[i + 1..]);
    ConcatAppend(Terminated(equations[..i]) + [lines[i]], Terminated(equations[i + 1..]));
    ConcatAppend(Terminated(equations[..i]), [lines[i]]);
    assert Concat([lines[i]]) == lines[i] by {
      assert [lines[i]][..0] == [];
    }
    var a, b := Concat(Terminated(equations[..i])), Concat(Terminated(equations[i + 1..]));
    AppendAssoc(CasesBegin, a + lines[i], b);
    AppendAssoc(CasesBegin, a, lines[i]);
    AppendAssoc(CasesBegin + a, equations[i], LineBreak);
  }

  // ----- MatrixStyle and create_matrix (lines 60-97) -----

  /** The matrix environments `create_matrix` can use. */
  datatype MatrixStyle =
    | NoBorders
    | BracketsBorders
    | BracesBorders
    | ParenthesesBorders
    | VerticalBarsBorders
    | DoubleVerticalBarsBorders
    | NoBordersSmall
  {
    /** The environment name, the enum member's value. */
    function Name(): string {
      match this
      case NoBorders => "matrix"
      case BracketsBorders => "bmatrix"
      case BracesBorders => "Bmatrix"
      case ParenthesesBorders => "pmatrix"
      case VerticalBarsBorders => "vmatrix"
      case DoubleVerticalBarsBorders => "Vmatrix"
      case NoBordersSmall => "smallmatrix"
    }
  }

  /** Distinct styles name distinct environments, each ending in "matrix". */
  lemma StyleNamesDistinct(s: MatrixStyle, t: MatrixStyle)
    ensures s.Name() == t.Name() <==> s == t
    ensures |s.Name()| >= 6 && s.Name()[|s.Name()| - 6..] == "matrix"
  {
  }

  function Begin(name: string): string {
    "\\begin{" + name + "}"
  }

  function End(name: string): string {
    "\\end{" + name + "}"
  }

  /** Python's `s.rstrip("&")`. */
  function StripTrailing(s: string): (t: string)
    ensures |t| <= |s| && t == s[..|t|]
    ensures |t| == 0 || t[|t| - 1] != '&'
    ensures forall i :: |t| <= i < |s| ==> s[i] == '&'
  {
    if |s| > 0 && s[|s| - 1] == '&' then StripTrailing(s[..|s| - 1]) else s
  }

  /** Python's `s.lstrip("&")`. */
  function StripLeading(s: string): (t: string)
    ensures |t| <= |s| && t == s[|s| - |t|..]
    ensures |t| == 0 || t[0] != '&'
    ensures forall i :: 0 <= i < |s| - |t| ==> s[i] == '&'
  {
    if |s| > 0 && s[0] == '&' then StripLeading(s[1..]) else s
  }

  /** Python's `s.strip("&")`: ampersands come off both ends. */
  function Strip(s: string): string {
    StripLeading(StripTrailing(s))
  }

  /** Each entry followed by `&`. */
  function Ampersanded(row: seq<string>): (cells: seq<string>)
    ensures |cells| == |row| && forall j :: 0 <= j < |row| ==> cells[j] == row[j] + "&"
  {
    seq(|row|, j requires 0 <= j < |row| => row[j] + "&")
  }

  /** One row of the matrix: its entries separated by `&`, trailing `&` removed, then `\\`. */
  function RowCode(row: seq<string>): string {
    StripTrailing(Concat(Ampersanded(row))) + LineBreak
  }

  function RowCodes(rows: seq<seq<string>>): (codes: seq<string>)
    ensures |codes| == |rows| && forall i :: 0 <= i < |rows| ==> codes[i] == RowCode(rows[i])
  {
    seq(|rows|, i requires 0 <= i < |rows| => RowCode(rows[i]))
  }

  /** The matrix as LaTeX: the environment around the rows' code. */
  function MatrixCode(rows: seq<seq<string>>, name: string): string {
    Begin(name) + Concat(RowCodes(rows)) + End(name)
  }

  /** When the text before an appended tail does not end in `&`, stripping trailing
      ampersands only touches the tail. */
  lemma {:induction false} StripTrailingAppend(p: string, t: string)
    requires |p| == 0 || p[|p| - 1] != '&'
    ensures StripTrailing(p + t) == p + StripTrailing(t)
    decreases |t|
  {
    if |t| > 0 && t[|t| - 1] == '&' {
      assert (p + t)[..|p + t| - 1] == p + t[..|t| - 1];
      StripTrailingAppend(p, t[..|t| - 1]);
    } else if |t| == 0 {
      assert p + t == p;
    }
  }

  /** Stripping the text of a row appended to code that starts with a backslash and does not
      end in `&` strips only the row's trailing ampersands. */
  lemma StripAfterPrefix(p: string, t: string)
    requires |p| > 0 && p[0] == '\\' && p[|p| - 1] != '&'
    ensures Strip(p + t) == p + StripTrailing(t)
  {
    StripTrailingAppend(p, t);
    assert (p + StripTrailing(t))[0] == '\\';
  }

  /** The matrix code built so far never ends in `&`: it ends with `}` or a line break. */
  lemma {:induction false} NoTrailingAmpersand(name: string, rows: seq<seq<string>>)
    ensures var s := Begin(name) + Concat(RowCodes(rows));
            s[0] == '\\' && s[|s| - 1] != '&'
    decreases |rows|
  {
    if |rows| > 0 {
      var n := |rows| - 1;
      assert RowCodes(rows)[..n] == RowCodes(rows[..n]);
    }
  }

  lemma AmpersandedSnoc(row: seq<string>, j: nat)
    requires j < |row|
    ensures Concat(Ampersanded(row[..j + 1])) == Concat(Ampersanded(row[..j])) + (row[j] + "&")
  {
    assert Ampersanded(row[..j + 1])[..j] == Ampersanded(row[..j]);
  }

  /** With a prefix in front, one more entry of a row appends it and its `&`. */
  lemma AmpersandedStep(prefix: string, row: seq<string>, j: nat)
    requires j < |row|
    ensures prefix + Concat(Ampersanded(row[..j + 1]))
            == prefix + Concat(Ampersanded(row[..j])) + (row[j] + "&")
  {
    AmpersandedSnoc(row, j);
    AppendAssoc(prefix, Concat(Ampersanded(row[..j])), row[j] + "&");
  }

  lemma RowCodesSnoc(head: string, rows: seq<seq<string>>, i: nat)
    requires i < |rows|
    ensures head + Concat(RowCodes(rows[..i + 1]))
            == head + Concat(RowCodes(rows[..i])) + StripTrailing(Concat(Ampersanded(rows[i]))) + LineBreak
  {
    assert RowCodes(rows[..i + 1])[..i] == RowCodes(rows[..i]);
    assert Concat(RowCodes(rows[..i + 1])) == Concat(RowCodes(rows[..i])) + RowCode(rows[i]);
    var p := head + Concat(RowCodes(rows[..i]));
    var t := StripTrailing(Concat(Ampersanded(rows[i])));
    AppendAssoc(head, Concat(RowCodes(rows[..i])), RowCode(rows[i]));
    AppendAssoc(p, t, LineBreak);
  }

  /** One pass of the outer loop of `create_matrix`: the code so far with the row's entries
      appended, stripped of `&` and ended with a line break, is the code of one more row. */
  lemma MatrixRowStep(name: string, rows: seq<seq<string>>, i: nat)
    requires i < |rows|
    ensures var prefix := Begin(name) + Concat(RowCodes(rows[..i]));
            Strip(prefix + Concat(Ampersanded(rows[i]))) + LineBreak
            == Begin(name) + Concat(RowCodes(rows[..i + 1]))
  {
    var prefix := Begin(name) + Concat(RowCodes(rows[..i]));
    NoTrailingAmpersand(name, rows[..i]);
    StripAfterPrefix(prefix, Concat(Ampersanded(rows[i])));
    RowCodesSnoc(Begin(name), rows, i);
  }

  /** One more `&` at the end changes nothing once trailing ampersands are stripped. */
  lemma StripTrailingSnoc(s: string)
    ensures StripTrailing(s + "&") == StripTrailing(s)
  {
    assert (s + "&")[..|s + "&"| - 1] == s;
  }

  /** An empty entry at the end of a row leaves the row's code unchanged: trailing empty
      entries vanish. */
  lemma RowCodeTrailingEmpty(row: seq<string>)
    ensures RowCode(row + [""]) == RowCode(row)
  {
    var r := row + [""];
    AmpersandedSnoc(r, |row|);
    assert r[..|row| + 1] == r && r[..|row|] == row;
    assert Concat(Ampersanded(r)) == Concat(Ampersanded(row)) + "&";
    StripTrailingSnoc(Concat(Ampersanded(row)));
  }

  /** When the last entry is non-empty and does not end in `&`, the row's code is every entry
      but the last followed by `&`, then the last entry, then a line break. */
  lemma RowCodeSeparated(row: seq<string>)
    requires |row| > 0
    requires var last := row[|row| - 1]; |last| > 0 && last[|last| - 1] != '&'
    ensures RowCode(row) == Concat(Ampersanded(row[..|row| - 1])) + row[|row| - 1] + LineBreak
  {
    var n := |row| - 1;
    var prefix := Concat(Ampersanded(row[..n])) + row[n];
    AmpersandedSnoc(row, n);
    assert row[..n + 1] == row;
    assert Concat(Ampersanded(row)) == prefix + "&";
    StripTrailingSnoc(prefix);
    assert prefix[|prefix| - 1] == row[n][|row[n]| - 1];
  }

  /** `create_matrix(coordinates, matrix_style)` with entries already turned into strings:
      the environment (pmatrix by default) is opened, each row's entries are appended each with
      `&`, the `&` at the ends of the text are stripped and a line break added, and the
      environment is closed. */
  method CreateMatrix(coordinates: seq<seq<string>>, matrixStyle: Option<MatrixStyle>) returns (latex: string)
    ensures latex == MatrixCode(coordinates, matrixStyle.GetOr(ParenthesesBorders).Name())
  {
    var style := if matrixStyle.None? then ParenthesesBorders else matrixStyle.value;
    var name := style.Name();
    assert name == matrixStyle.GetOr(ParenthesesBorders).Name();
    latex := Begin(name);
    for i := 0 to |coordinates|
      invariant latex == Begin(name) + Concat(RowCodes(coordinates[..i]))
    {
      var row := coordinates[i];
      var prefix := latex;
      for j := 0 to |row|
        invariant latex == prefix + Concat(Ampersanded(row[..j]))
      {
        AmpersandedStep(prefix, row, j);
        latex := latex + (row[j] + "&");
      }
      assert row[..|row|] == row;
      MatrixRowStep(name, coordinates, i);
      latex := Strip(latex) + LineBreak;
    }
    assert coordinates[..|coordinates|] == coordinates;
    latex := latex + End(name);
  }
}
