/** helper_functions/tests/point_interpolation_tests.py: the reader that turns a text of
    coefficients into rows of number tokens, and the comparison of two coefficient lists. */
module PointInterpolationTests {
  import opened Wrappers
  import opened GeneralUtilities

  // ---------------------------------------------------------------------------------------
  // Lines
  // ---------------------------------------------------------------------------------------

  /** Python's `s.split("\n")`: the text between newlines, empty pieces included. */
  function SplitLines(s: string): (lines: seq<string>)
    ensures |lines| > 0
  {
    if |s| == 0 then [""]
    else
      var lines := SplitLines(s[..|s| - 1]);
      var c := s[|s| - 1];
      if c == '\n' then lines + [""]
      else lines[..|lines| - 1] + [lines[|lines| - 1] + [c]]
  }

  /** `"\n".join(lines)`. */
  function JoinLines(lines: seq<string>): string
    requires |lines| > 0
  {
    if |lines| == 1 then lines[0] else JoinLines(lines[..|lines| - 1]) + "\n" + lines[|lines| - 1]
  }

  function CountNewlines(s: string): nat {
    if |s| == 0 then 0 else CountNewlines(s[..|s| - 1]) + (if s[|s| - 1] == '\n' then 1 else 0)
  }

  /** Splitting gives one line more than there are newlines, no line holds a newline, and
      joining the lines with newlines gives the text back. */
  lemma SplitLinesProperties(s: string)
    ensures |SplitLines(s)| == CountNewlines(s) + 1
    ensures forall i :: 0 <= i < |SplitLines(s)| ==> '\n' !in SplitLines(s)[i]
    ensures JoinLines(SplitLines(s)) == s
  {
    SplitLinesCount(s);
    SplitLinesNoNewline(s);
    SplitLinesJoin(s);
  }

  lemma {:induction false} SplitLinesCount(s: string)
    ensures |SplitLines(s)| == CountNewlines(s) + 1
  {
    if |s| > 0 {
      SplitLinesCount(s[..|s| - 1]);
    }
  }

  lemma {:induction false} SplitLinesNoNewline(s: string)
    ensures forall i :: 0 <= i < |SplitLines(s)| ==> '\n' !in SplitLines(s)[i]
  {
    if |s| > 0 {
      var init, c := s[..|s| - 1], s[|s| - 1];
      SplitLinesNoNewline(init);
      var lines := SplitLines(init);
      if c != '\n' {
        var last := lines[|lines| - 1] + [c];
        assert SplitLines(s) == lines[..|lines| - 1] + [last];
        assert '\n' !in last;
      }
    }
  }

  lemma {:induction false} SplitLinesJoin(s: string)
    ensures JoinLines(SplitLines(s)) == s
  {
    if |s| > 0 {
      var init, c := s[..|s| - 1], s[|s| - 1];
      SplitLinesJoin(init);
      assert s == init + [c];
      if c == '\n' {
        JoinLinesEmptyLast(SplitLines(init));
      } else {
        JoinLinesExtendLast(SplitLines(init), [c]);
      }
    }
  }

  /** A new empty last line adds one newline to the joined text. */
  lemma JoinLinesEmptyLast(lines: seq<string>)
    requires |lines| > 0
    ensures JoinLines(lines + [""]) == JoinLines(lines) + "\n"
  {
    assert (lines + [""])[..|lines|] == lines;
  }

  /** Extending the last line extends the joined text. */
  lemma JoinLinesExtendLast(lines: seq<string>, x: string)
    requires |lines| > 0
    ensures JoinLines(lines[..|lines| - 1] + [lines[|lines| - 1] + x]) == JoinLines(lines) + x
  {
    var n := |lines| - 1;
    var last := lines[n] + x;
    if n == 0 {
      assert lines == [lines[0]];
    } else {
      var extended := lines[..n] + [last];
      var head := JoinLines(lines[..n]) + "\n";
      assert extended[..n] == lines[..n] && extended[n] == last;
      assert JoinLines(extended) == head + last;
      assert JoinLines(lines) == head + lines[n];
      AppendAssoc(head, lines[n], x);
    }
  }

  // ---------------------------------------------------------------------------------------
  // Tokens of one line
  // ---------------------------------------------------------------------------------------

  /** The characters a number token is made of: digits, `-` and `.`. */
  predicate Relevant(c: char) {
    IsDigit(c) || c == '-' || c == '.'
  }

  predicate AllRelevant(s: string) {
    forall i :: 0 <= i < |s| ==> Relevant(s[i])
  }

  /** The tokens closed so far and the run of number characters still open. */
  datatype ScanState = ScanState(tokens: seq<string>, run: string)

  /** Reading a line left to right: a number character extends the open run; any other
      character closes a non-empty run into a token. */
  function Scan(line: string): ScanState {
    if |line| == 0 then ScanState([], "")
    else
      var st := Scan(line[..|line| - 1]);
      var c := line[|line| - 1];
      if Relevant(c) then ScanState(st.tokens, st.run + [c])
      else if |st.run| > 0 then ScanState(st.tokens + [st.run], "")
      else ScanState(st.tokens, "")
  }

  /** The maximal runs of number characters of a line, in order. */
  function Tokens(line: string): seq<string> {
    var st := Scan(line);
    if |st.run| > 0 then st.tokens + [st.run] else st.tokens
  }

  /** Every token is a non-empty run of number characters, and so is the open run when it is
      not empty; the open run is the end of the line. */
  lemma ScanWellFormed(line: string)
    ensures forall i :: 0 <= i < |Scan(line).tokens| ==>
              |Scan(line).tokens[i]| > 0 && AllRelevant(Scan(line).tokens[i])
    ensures AllRelevant(Scan(line).run)
    ensures |Scan(line).run| <= |line| && Scan(line).run == line[|line| - |Scan(line).run|..]
  {
    ScanTokensWellFormed(line);
    ScanRunIsSuffix(line);
  }

  lemma {:induction false} ScanRunIsSuffix(line: string)
    ensures AllRelevant(Scan(line).run)
    ensures |Scan(line).run| <= |line| && Scan(line).run == line[|line| - |Scan(line).run|..]
  {
    if |line| > 0 {
      var init, c := line[..|line| - 1], line[|line| - 1];
      ScanRunIsSuffix(init);
      var run := Scan(init).run;
      if Relevant(c) {
        assert line[|line| - |run| - 1..] == init[|init| - |run|..] + [c];
      }
    }
  }

  lemma {:induction false} ScanTokensWellFormed(line: string)
    ensures forall i :: 0 <= i < |Scan(line).tokens| ==>
              |Scan(line).tokens[i]| > 0 && AllRelevant(Scan(line).tokens[i])
  {
    if |line| > 0 {
      var init := line[..|line| - 1];
      ScanTokensWellFormed(init);
      ScanRunIsSuffix(init);
    }
  }

  lemma TokensWellFormed(line: string)
    ensures forall i :: 0 <= i < |Tokens(line)| ==> |Tokens(line)[i]| > 0 && AllRelevant(Tokens(line)[i])
  {
    ScanWellFormed(line);
  }

  /** Reading on from a point where no run is open starts afresh. */
  lemma {:induction false} ScanAfterClosedRun(p: string, b: string)
    requires Scan(p).run == ""
    ensures Scan(p + b) == ScanState(Scan(p).tokens + Scan(b).tokens, Scan(b).run)
    decreases |b|
  {
    if |b| == 0 {
      assert p + b == p;
    } else {
      var init := b[..|b| - 1];
      ScanAfterClosedRun(p, init);
      assert (p + b)[..|p + b| - 1] == p + init;
      assert Scan(p).tokens + Scan(init).tokens + [Scan(init).run]
             == Scan(p).tokens + (Scan(init).tokens + [Scan(init).run]);
    }
  }

  /** A character that is not part of a number splits the line: the tokens are those before
      it followed by those after it. */
  lemma TokensSplit(a: string, c: char, b: string)
    requires !Relevant(c)
    ensures Tokens(a + [c] + b) == Tokens(a) + Tokens(b)
  {
    assert (a + [c])[..|a|] == a;
    assert Scan(a + [c]) == ScanState(Tokens(a), "");
    ScanAfterClosedRun(a + [c], b);
    if |Scan(b).run| > 0 {
      assert Tokens(a) + Scan(b).tokens + [Scan(b).run] == Tokens(a) + (Scan(b).tokens + [Scan(b).run]);
    }
  }

  /** A line made only of number characters is a single token. */
  lemma TokensOfRun(line: string)
    requires AllRelevant(line) && |line| > 0
    ensures Tokens(line) == [line]
  {
    ScanKeepsNoTokens(line);
    ScanRunLength(line);
  }

  /** A line without number characters gives no token. */
  lemma {:induction false} TokensOfSeparators(line: string)
    requires forall i :: 0 <= i < |line| ==> !Relevant(line[i])
    ensures Scan(line) == ScanState([], "")
    ensures Tokens(line) == []
  {
    if |line| > 0 {
      TokensOfSeparators(line[..|line| - 1]);
    }
  }

  /** A line of number characters closes no token. */
  lemma {:induction false} ScanKeepsNoTokens(line: string)
    requires AllRelevant(line)
    ensures Scan(line).tokens == []
  {
    if |line| > 0 {
      ScanKeepsNoTokens(line[..|line| - 1]);
    }
  }

  /** On a line of number characters the open run is the whole line. */
  lemma {:induction false} ScanRunLength(line: string)
    requires AllRelevant(line)
    ensures Scan(line).run == line
  {
    if |line| > 0 {
      ScanRunLength(line[..|line| - 1]);
      assert line == line[..|line| - 1] + [line[|line| - 1]];
    }
  }

  /** A letter splits a number: "1e-5" reads as the tokens "1" and "-5". */
  lemma TokensExample()
    ensures Tokens("1e-5") == ["1", "-5"]
    ensures Tokens("0.5,-2.25") == ["0.5", "-2.25"]
  {
    TokensSplit("1", 'e', "-5");
    assert "1e-5" == "1" + ['e'] + "-5";
    TokensOfRun("1");
    TokensOfRun("-5");
    TokensSplit("0.5", ',', "-2.25");
    assert "0.5,-2.25" == "0.5" + [','] + "-2.25";
    TokensOfRun("0.5");
    TokensOfRun("-2.25");
  }

  // ---------------------------------------------------------------------------------------
  // data_to_coefficients_list
  // ---------------------------------------------------------------------------------------

  /** `data_to_coefficients_list` with the tokens kept as text: one row per line, each row the
      line's tokens in order. The loop emits the buffer when a character outside a number
      follows it or when the line's last character has been added to it. */
  method DataToCoefficientsList(inputData: string) returns (parsedCoefficients: seq<seq<string>>)
    ensures |parsedCoefficients| == |SplitLines(inputData)|
    ensures forall i :: 0 <= i < |parsedCoefficients| ==>
              parsedCoefficients[i] == Tokens(SplitLines(inputData)[i])
  {
    var rows := SplitLines(inputData);
    parsedCoefficients := [];
    for r := 0 to |rows|
      invariant |parsedCoefficients| == r
      invariant forall i :: 0 <= i < r ==> parsedCoefficients[i] == Tokens(rows[i])
    {
      var row := rows[r];
      var coefficientBuffer := "";
      var parsedRowCoefficients: seq<string> := [];
      for characterIndex := 0 to |row|
        invariant characterIndex < |row| || characterIndex == 0 ==>
                    ScanState(parsedRowCoefficients, coefficientBuffer) == Scan(row[..characterIndex])
        invariant characterIndex == |row| ==> parsedRowCoefficients == Tokens(row)
      {
        var character := row[characterIndex];
        var characterRelevant: bool;
        if IsDigit(character) || character == '-' || character == '.' {
          coefficientBuffer := coefficientBuffer + [character];
          characterRelevant := true;
        } else {
          characterRelevant := false;
        }
        if |coefficientBuffer| > 0 && (!characterRelevant || characterIndex == |row| - 1) {
          parsedRowCoefficients := parsedRowCoefficients + [coefficientBuffer];
          coefficientBuffer := "";
        }
        assert row[..characterIndex + 1][..characterIndex] == row[..characterIndex];
        if characterIndex == |row| - 1 {
          assert row[..characterIndex + 1] == row;
        }
      }
      parsedCoefficients := parsedCoefficients + [parsedRowCoefficients];
    }
  }

  /** The number of rows read is the number of newlines plus one; an empty line gives an empty
      row. */
  lemma DataToCoefficientsRows(inputData: string)
    ensures |SplitLines(inputData)| == CountNewlines(inputData) + 1
    ensures forall i :: 0 <= i < |SplitLines(inputData)| && SplitLines(inputData)[i] == "" ==>
              Tokens(SplitLines(inputData)[i]) == []
  {
    SplitLinesProperties(inputData);
  }

  // ---------------------------------------------------------------------------------------
  // assert_coefficients_equal
  // ---------------------------------------------------------------------------------------

  function Abs(a: real): real {
    if a < 0.0 then -a else a
  }

  function Pow10(n: nat): real {
    if n == 0 then 1.0 else 10.0 * Pow10(n - 1)
  }

  /** `assertAlmostEqual(a, b, places)` over exact reals: equal, or the difference rounds to
      zero at that many decimal places (half a unit in the last place rounds to even, zero). */
  predicate AlmostEqual(a: real, b: real, places: nat) {
    a == b || Abs(a - b) * Pow10(places) <= 0.5
  }

  /** The first check of `assert_coefficients_equal` that fails. */
  datatype Mismatch =
    | LengthMismatch
    | RowLengthMismatch(row: nat)
    | ValueMismatch(row: nat, column: nat)

  /** Row a of both lists has the same length and equal values to 10 places. */
  predicate RowMatches(list1: seq<seq<real>>, list2: seq<seq<real>>, a: nat)
    requires a < |list1| && a < |list2|
  {
    |list1[a]| == |list2[a]|
    && forall b :: 0 <= b < |list1[a]| ==> AlmostEqual(list1[a][b], list2[a][b], 10)
  }

  /** `assert_coefficients_equal`: the outer lengths are compared first; then row by row, the
      row lengths and then the values to 10 decimal places. The result names the first failed
      assertion (an AssertionError), or None when all pass. */
  method AssertCoefficientsEqual(list1: seq<seq<real>>, list2: seq<seq<real>>)
    returns (mismatch: Option<Mismatch>)
    ensures mismatch.None? <==>
              |list1| == |list2| && forall a :: 0 <= a < |list1| ==> RowMatches(list1, list2, a)
    ensures mismatch == Some(LengthMismatch) <==> |list1| != |list2|
    ensures mismatch.Some? && mismatch.value.RowLengthMismatch? ==>
              var a := mismatch.value.row;
              && |list1| == |list2| && a < |list1|
              && (forall e :: 0 <= e < a ==> RowMatches(list1, list2, e))
              && |list1[a]| != |list2[a]|
    ensures mismatch.Some? && mismatch.value.ValueMismatch? ==>
              var a, b := mismatch.value.row, mismatch.value.column;
              && |list1| == |list2| && a < |list1|
              && (forall e :: 0 <= e < a ==> RowMatches(list1, list2, e))
              && |list1[a]| == |list2[a]| && b < |list1[a]|
              && (forall f :: 0 <= f < b ==> AlmostEqual(list1[a][f], list2[a][f], 10))
              && !AlmostEqual(list1[a][b], list2[a][b], 10)
  {
    if |list1| != |list2| {
      return Some(LengthMismatch);
    }
    for a := 0 to |list1|
      invariant forall e :: 0 <= e < a ==> RowMatches(list1, list2, e)
    {
      var list1CoefficientSet := list1[a];
      var list2CoefficientSet := list2[a];
      if |list1CoefficientSet| != |list2CoefficientSet| {
        assert !RowMatches(list1, list2, a);
        return Some(RowLengthMismatch(a));
      }
      for b := 0 to |list1CoefficientSet|
        invariant forall f :: 0 <= f < b ==> AlmostEqual(list1[a][f], list2[a][f], 10)
      {
        if !AlmostEqual(list1CoefficientSet[b], list2CoefficientSet[b], 10) {
          assert !RowMatches(list1, list2, a);
          return Some(ValueMismatch(a, b));
        }
      }
    }
    return None;
  }

  /** Lists compared with themselves always pass; two values differing by 1/10^9 fail. */
  lemma AssertCoefficientsEqualExamples(list: seq<seq<real>>)
    ensures forall a :: 0 <= a < |list| ==> RowMatches(list, list, a)
    ensures !AlmostEqual(0.0, 1.0 / Pow10(9), 10)
    ensures AlmostEqual(0.0, 1.0 / Pow10(11), 10)
  {
    assert Pow10(10) == 10.0 * Pow10(9);
    assert Pow10(11) == 10.0 * Pow10(10);
  }
}
