/** The number formatting of helper_functions/general_utilities.py: Python's `str` on an
    integer, and `addition_string`, which prefixes non-negative numbers with a plus sign. */
module GeneralUtilities {
  import opened Wrappers

  /** Concatenation of text is associative. */
  lemma AppendAssoc(a: string, b: string, c: string)
    ensures a + (b + c) == a + b + c
  {
  }

  predicate IsDigit(c: char) {
    '0' <= c <= '9'
  }

  predicate AllDigits(s: string) {
    forall i :: 0 <= i < |s| ==> IsDigit(s[i])
  }

  function DigitChar(d: nat): (c: char)
    requires d < 10
    ensures IsDigit(c) && c as int - '0' as int == d
  {
    (d + '0' as int) as char
  }

  function DigitValue(c: char): (d: nat)
    requires IsDigit(c)
    ensures d < 10 && DigitChar(d) == c
  {
    c as int - '0' as int
  }

  /** Decimal digits of a natural number, most significant first, without leading zeros. */
  function NatToString(n: nat): (s: string)
    ensures |s| > 0 && AllDigits(s)
    ensures |s| > 1 ==> s[0] != '0'
  {
    if n < 10 then [DigitChar(n)] else NatToString(n / 10) + [DigitChar(n % 10)]
  }

  /** Python's `str` on an int: a minus sign for negative numbers, then the digits. */
  function IntToString(n: int): (s: string)
    ensures |s| > 0
    ensures s[0] == '-' <==> n < 0
  {
    if n < 0 then "-" + NatToString(-n) else NatToString(n)
  }

  /** After the optional minus sign, `str` on an int yields decimal digits only. */
  lemma IntToStringDigits(n: int)
    ensures n < 0 ==> |IntToString(n)| > 1 && AllDigits(IntToString(n)[1..])
    ensures n >= 0 ==> AllDigits(IntToString(n))
  {
    if n < 0 {
      assert IntToString(n)[1..] == NatToString(-n);
    }
  }

  /** The value of a string of decimal digits (the empty string is 0). */
  function ParseDigits(s: string): nat
    requires AllDigits(s)
  {
    if s == [] then 0 else ParseDigits(s[..|s| - 1]) * 10 + DigitValue(s[|s| - 1])
  }

  lemma {:induction false} ParseDigitsOfNatToString(n: nat)
    ensures ParseDigits(NatToString(n)) == n
  {
    if n >= 10 {
      var s := NatToString(n);
      assert s[..|s| - 1] == NatToString(n / 10);
      ParseDigitsOfNatToString(n / 10);
    }
  }

  /** Reads back a string of the form produced by `addition_string`: a sign, then digits. */
  function ParseSignedInt(s: string): Option<int> {
    if |s| >= 2 && (s[0] == '+' || s[0] == '-') && AllDigits(s[1..]) then
      var magnitude: int := ParseDigits(s[1..]);
      Some(if s[0] == '-' then -magnitude else magnitude)
    else
      None
  }

  /** `addition_string` (helper_functions/general_utilities.py:30-40) on an integer: a negative
      number is returned as `str(n)`, anything else as `"+" + str(n)`. The result always
      carries an explicit sign, never the pair "+-", and it reads back as `n`. */
  function AdditionString(n: int): (s: string)
    ensures |s| >= 2 && (s[0] == '+' || s[0] == '-') && AllDigits(s[1..])
    ensures s[0] == '+' <==> n >= 0
    ensures n < 0 ==> s == IntToString(n)
    ensures n >= 0 ==> s == "+" + IntToString(n)
  {
    IntToStringDigits(n);
    if n < 0 then IntToString(n) else "+" + IntToString(n)
  }

  /** The sign-aware string round-trips: reading it back gives the number. */
  lemma AdditionStringRoundTrip(n: int)
    ensures ParseSignedInt(AdditionString(n)) == Some(n)
  {
    var s := AdditionString(n);
    if n < 0 {
      assert s[1..] == NatToString(-n);
      ParseDigitsOfNatToString(-n);
    } else {
      assert s[1..] == NatToString(n);
      ParseDigitsOfNatToString(n);
    }
  }

  /** Distinct numbers never format to the same string. */
  lemma AdditionStringInjective(m: int, n: int)
    requires AdditionString(m) == AdditionString(n)
    ensures m == n
  {
    AdditionStringRoundTrip(m);
    AdditionStringRoundTrip(n);
  }

  /** The examples of the docstring, and zero, which gets a plus sign. */
  lemma AdditionStringExamples()
    ensures AdditionString(1) == "+1"
    ensures AdditionString(-1) == "-1"
    ensures AdditionString(0) == "+0"
    ensures AdditionString(-25) == "-25"
  {
  }
}
