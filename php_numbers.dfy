/** PHP 8's numeric strings, as a property typed `int` reads a string outside
    strict mode: leading whitespace is skipped, then a sign, a decimal
    mantissa and an optional exponent make the number, and the value is the
    number truncated toward zero. Text after the number (trailing
    whitespace, or anything else with an `E_WARNING`) does not change the
    value; a string that does not start with a number is a `TypeError`. */
module PhpNumbers {
  import opened Wrappers
  import opened Numbers

  /** The whitespace PHP skips before a number: space, tab, newline,
      carriage return, vertical tab and form feed. */
  predicate IsNumericSpace(c: char) {
    c == ' ' || c == '\t' || c == '\n' || c == '\r' || c == '\U{000B}' || c == '\U{000C}'
  }

  predicate IsSign(c: char) { c == '+' || c == '-' }

  predicate IsExponentMark(c: char) { c == 'e' || c == 'E' }

  /** The end of the run of characters satisfying `p` that starts at `i`. */
  function RunEnd(s: string, i: nat, p: char -> bool): (j: nat)
    requires i <= |s|
    ensures i <= j <= |s|
    ensures forall k :: i <= k < j ==> p(s[k])
    ensures j < |s| ==> !p(s[j])
    decreases |s| - i
  {
    if i < |s| && p(s[i]) then RunEnd(s, i + 1, p) else i
  }

  /** A run is determined by where it stops. */
  lemma {:induction false} RunEndAt(s: string, i: nat, j: nat, p: char -> bool)
    requires i <= j <= |s|
    requires forall k :: i <= k < j ==> p(s[k])
    requires j == |s| || !p(s[j])
    ensures RunEnd(s, i, p) == j
    decreases j - i
  {
    if i < j {
      RunEndAt(s, i + 1, j, p);
    }
  }

  function Pow10(k: nat): (p: nat)
    ensures p >= 1
  {
    if k == 0 then 1 else 10 * Pow10(k - 1)
  }

  /** The parts of a number: its sign, the digits before and after the
      point, the exponent, and where its text ends. */
  datatype NumberText = NumberText(negative: bool, whole: string, fraction: string, exponent: int, end: nat)

  /** At least one digit, and only digits, in the mantissa. */
  predicate WellFormed(n: NumberText) {
    AllDigits(n.whole) && AllDigits(n.fraction) && |n.whole| + |n.fraction| > 0
  }

  /** The exponent that may follow a mantissa ending at `i`: `e` or `E`, an
      optional sign and at least one digit. Without those digits there is no
      exponent, and the number ends at `i`. */
  function ScanExponent(s: string, i: nat): (r: (int, nat))
    requires i <= |s|
    ensures i <= r.1 <= |s|
    ensures r.1 == i ==> r.0 == 0
    ensures i == |s| || !IsExponentMark(s[i]) ==> r == (0, i)
  {
    if i < |s| && IsExponentMark(s[i]) then
      var signed := i + 1 < |s| && IsSign(s[i + 1]);
      var d := if signed then i + 2 else i + 1;
      var e := RunEnd(s, d, IsDigit);
      if e == d then (0, i)
      else
        var magnitude: int := DecimalValue(s[d..e]);
        (if signed && s[i + 1] == '-' then -magnitude else magnitude, e)
    else (0, i)
  }

  /** `_is_numeric_string_ex`: the number at the start of `s` once leading
      whitespace is skipped, or `None` when no number starts there. A '.'
      needs a digit on at least one side. */
  function ScanNumber(s: string): (r: Option<NumberText>)
    ensures r.Some? ==> WellFormed(r.value) && r.value.end <= |s|
  {
    var start := RunEnd(s, 0, IsNumericSpace);
    var signed := start < |s| && IsSign(s[start]);
    var i := if signed then start + 1 else start;
    var wholeEnd := RunEnd(s, i, IsDigit);
    var point := wholeEnd < |s| && s[wholeEnd] == '.';
    var fractionEnd := if point then RunEnd(s, wholeEnd + 1, IsDigit) else wholeEnd;
    var whole := s[i..wholeEnd];
    var fraction := if point then s[wholeEnd + 1..fractionEnd] else "";
    assert AllDigits(whole) by {
      forall k | 0 <= k < |whole| ensures IsDigit(whole[k]) { assert whole[k] == s[i + k]; }
    }
    assert AllDigits(fraction) by {
      forall k | 0 <= k < |fraction| ensures IsDigit(fraction[k]) { assert fraction[k] == s[wholeEnd + 1 + k]; }
    }
    if |whole| + |fraction| == 0 then None
    else
      var exponent := ScanExponent(s, fractionEnd);
      Some(NumberText(signed && s[start] == '-', whole, fraction, exponent.0, exponent.1))
  }

  lemma AllDigitsConcat(a: string, b: string)
    requires AllDigits(a) && AllDigits(b)
    ensures AllDigits(a + b)
  {
    assert forall k :: 0 <= k < |a + b| ==> (a + b)[k] == if k < |a| then a[k] else b[k - |a|];
  }

  /** The number's exact value truncated toward zero: the integer itself for
      integral text, and `zend_dval_to_lval` of the parsed double
      otherwise. */
  function IntegerValue(n: NumberText): int
    requires WellFormed(n)
  {
    AllDigitsConcat(n.whole, n.fraction);
    var mantissa := DecimalValue(n.whole + n.fraction);
    var scale := n.exponent - |n.fraction|;
    var magnitude := if scale >= 0 then mantissa * Pow10(scale) else mantissa / Pow10(-scale);
    if n.negative then -magnitude else magnitude
  }

  /** The integer a string gives a property typed `int`, or `None` for the
      `TypeError` of a string that does not start with a number. */
  function NumericIntValue(s: string): (r: Option<int>)
    ensures r.Some? <==> ScanNumber(s).Some?
  {
    match ScanNumber(s)
    case None => None
    case Some(n) => Some(IntegerValue(n))
  }

  /** No more number: the text does not go on with a digit, a point or an
      exponent mark. */
  predicate NumberStops(after: string) {
    |after| == 0 || !(IsDigit(after[0]) || after[0] == '.' || IsExponentMark(after[0]))
  }

  /** A plain run of digits, possibly after a '-', that stops before any
      fraction or exponent is scanned as that integer text. */
  lemma ScanDecimal(s: string, start: nat, negative: bool, d: string)
    requires start <= |s|
    requires forall k :: 0 <= k < start ==> IsNumericSpace(s[k])
    requires |d| > 0 && AllDigits(d)
    requires start + (if negative then 1 else 0) + |d| <= |s|
    requires negative ==> s[start] == '-'
    requires s[start + (if negative then 1 else 0)..start + (if negative then 1 else 0) + |d|] == d
    requires NumberStops(s[start + (if negative then 1 else 0) + |d|..])
    ensures ScanNumber(s) == Some(NumberText(negative, d, "", 0, start + (if negative then 1 else 0) + |d|))
  {
    var at := start + (if negative then 1 else 0);
    var end := at + |d|;
    assert forall k :: 0 <= k < |d| ==> s[at + k] == d[k];
    assert !IsNumericSpace(s[start]) by {
      if !negative { assert s[start] == d[0]; }
    }
    RunEndAt(s, 0, start, IsNumericSpace);
    assert IsSign(s[start]) <==> negative by {
      if !negative { assert s[start] == d[0]; }
    }
    assert end < |s| ==> s[end] == s[end..][0];
    RunEndAt(s, at, end, IsDigit);
  }

  /** The decimal text of any integer reads back as that integer, whatever
      whitespace surrounds it and whatever non-numeric text follows it. */
  lemma DecimalTextReadsBack(i: int, before: string, after: string)
    requires forall k :: 0 <= k < |before| ==> IsNumericSpace(before[k])
    requires NumberStops(after)
    ensures NumericIntValue(before + IntToDecimal(i) + after) == Some(i)
  {
    if i < 0 {
      NegativeReadsBack(i, before, after);
    } else {
      NonNegativeReadsBack(i, before, after);
    }
  }

  lemma NonNegativeReadsBack(i: nat, before: string, after: string)
    requires forall k :: 0 <= k < |before| ==> IsNumericSpace(before[k])
    requires NumberStops(after)
    ensures NumericIntValue(before + NatToDecimal(i) + after) == Some(i)
  {
    UnsignedTextValue(before, NatToDecimal(i), after);
    DecimalValueOfNatToDecimal(i);
  }

  lemma NegativeReadsBack(i: int, before: string, after: string)
    requires i < 0
    requires forall k :: 0 <= k < |before| ==> IsNumericSpace(before[k])
    requires NumberStops(after)
    ensures NumericIntValue(before + ("-" + NatToDecimal(-i)) + after) == Some(i)
  {
    SignedTextValue(before, NatToDecimal(-i), after);
    DecimalValueOfNatToDecimal(-i);
  }

  /** Unsigned digits between whitespace and non-numeric text give their
      value. */
  lemma UnsignedTextValue(before: string, d: string, after: string)
    requires forall k :: 0 <= k < |before| ==> IsNumericSpace(before[k])
    requires |d| > 0 && AllDigits(d)
    requires NumberStops(after)
    ensures NumericIntValue(before + d + after) == Some(DecimalValue(d))
  {
    UnsignedTextScans(before, d, after);
    IntegerValueOfDigits(false, d, |before| + |d|);
  }

  /** Digits after a '-' give their value negated. */
  lemma SignedTextValue(before: string, d: string, after: string)
    requires forall k :: 0 <= k < |before| ==> IsNumericSpace(before[k])
    requires |d| > 0 && AllDigits(d)
    requires NumberStops(after)
    ensures NumericIntValue(before + ("-" + d) + after) == Some(-(DecimalValue(d) as int))
  {
    var s := before + ("-" + d) + after;
    var n := NumberText(true, d, "", 0, |before| + 1 + |d|);
    SignedTextScans(before, d, after);
    IntegerValueOfDigits(true, d, n.end);
    ValueOfScan(s, n);
  }

  /** A text that scans to `n` has `n`'s value. */
  lemma ValueOfScan(s: string, n: NumberText)
    requires ScanNumber(s) == Some(n)
    ensures WellFormed(n) && NumericIntValue(s) == Some(IntegerValue(n))
  {
  }

  lemma UnsignedTextScans(before: string, d: string, after: string)
    requires forall k :: 0 <= k < |before| ==> IsNumericSpace(before[k])
    requires |d| > 0 && AllDigits(d)
    requires NumberStops(after)
    ensures ScanNumber(before + d + after) == Some(NumberText(false, d, "", 0, |before| + |d|))
  {
    Surrounded(before, d, after);
    ScanDecimal(before + d + after, |before|, false, d);
  }

  lemma SignedTextScans(before: string, d: string, after: string)
    requires forall k :: 0 <= k < |before| ==> IsNumericSpace(before[k])
    requires |d| > 0 && AllDigits(d)
    requires NumberStops(after)
    ensures ScanNumber(before + ("-" + d) + after) == Some(NumberText(true, d, "", 0, |before| + 1 + |d|))
  {
    Surrounded(before, "-" + d, after);
    assert ("-" + d)[1..] == d;
    ScanDecimal(before + ("-" + d) + after, |before|, true, d);
  }

  /** An integral text without fraction or exponent has its digits' value. */
  lemma IntegerValueOfDigits(negative: bool, d: string, end: nat)
    requires |d| > 0 && AllDigits(d)
    ensures IntegerValue(NumberText(negative, d, "", 0, end)) == if negative then -(DecimalValue(d) as int) else DecimalValue(d)
  {
    assert d + "" == d;
    assert Pow10(0) == 1;
  }

  /** Where the three parts of `before + t + after` lie. */
  lemma Surrounded(before: string, t: string, after: string)
    ensures var s := before + t + after;
            && (forall k :: 0 <= k < |before| ==> s[k] == before[k])
            && s[|before|..|before| + |t|] == t
            && s[|before| + |t|..] == after
            && (|t| > 0 ==> s[|before|] == t[0])
            && (|t| > 0 ==> s[|before| + 1..|before| + |t|] == t[1..])
  {
  }

  /** A string of whitespace only, the empty string included, is not a
      number. */
  lemma BlankRefused(s: string)
    requires forall k :: 0 <= k < |s| ==> IsNumericSpace(s[k])
    ensures NumericIntValue(s).None?
  {
    RunEndAt(s, 0, |s|, IsNumericSpace);
    RunEndAt(s, |s|, |s|, IsDigit);
  }

  /** Text whose first character after the whitespace is neither a sign, a
      digit nor a point is not a number. */
  lemma NonNumericRefused(before: string, rest: string)
    requires forall k :: 0 <= k < |before| ==> IsNumericSpace(before[k])
    requires |rest| > 0 && !IsNumericSpace(rest[0]) && !IsSign(rest[0]) && !IsDigit(rest[0]) && rest[0] != '.'
    ensures NumericIntValue(before + rest).None?
  {
    var s := before + rest;
    assert s[|before|] == rest[0];
    assert forall k :: 0 <= k < |before| ==> s[k] == before[k];
    RunEndAt(s, 0, |before|, IsNumericSpace);
    RunEndAt(s, |before|, |before|, IsDigit);
  }

  /** Whitespace around the number and text after it. */
  lemma PaddedExamples()
    ensures NumericIntValue(" 0") == Some(0)
    ensures NumericIntValue("12 ") == Some(12)
    ensures NumericIntValue("12abc") == Some(12)
  {
    LeadingSpaceExample();
    TrailingSpaceExample();
    TrailingTextExample();
  }

  lemma LeadingSpaceExample()
    ensures NumericIntValue(" 0") == Some(0)
  {
    assert " " + "0" + "" == " 0";
    UnsignedTextValue(" ", "0", "");
    assert DecimalValue("0") == 0 by { assert "0"[..0] == ""; }
  }

  lemma TrailingSpaceExample()
    ensures NumericIntValue("12 ") == Some(12)
  {
    assert "" + "12" + " " == "12 ";
    UnsignedTextValue("", "12", " ");
    assert DecimalValue("12") == 12 by { assert "12"[..1] == "1"; assert "1"[..0] == ""; }
  }

  lemma TrailingTextExample()
    ensures NumericIntValue("12abc") == Some(12)
  {
    assert "" + "12" + "abc" == "12abc";
    UnsignedTextValue("", "12", "abc");
    assert DecimalValue("12") == 12 by { assert "12"[..1] == "1"; assert "1"[..0] == ""; }
  }

  /** An exponent scales the mantissa: "1e3" is a thousand. */
  lemma ExponentExample()
    ensures NumericIntValue("1e3") == Some(1000)
  {
    var s := "1e3";
    RunEndAt(s, 0, 0, IsNumericSpace);
    RunEndAt(s, 0, 1, IsDigit);
    RunEndAt(s, 2, 3, IsDigit);
    assert s[0..1] == "1" && s[2..3] == "3";
    assert IsExponentMark(s[1]) && !IsSign(s[2]);
    assert DecimalValue("3") == 3 by { assert "3"[..0] == ""; }
    assert ScanExponent(s, 1) == (3, 3);
    assert ScanNumber(s) == Some(NumberText(false, "1", "", 3, 3));
    assert DecimalValue("1" + "") == 1 by { assert "1" + "" == "1"; assert "1"[..0] == ""; }
    assert Pow10(3) == 1000;
  }

  /** A fraction of zero keeps the integer: "1.0" is 1. */
  lemma IntegralFractionExample()
    ensures NumericIntValue("1.0") == Some(1)
  {
    var s := "1.0";
    RunEndAt(s, 0, 0, IsNumericSpace);
    RunEndAt(s, 0, 1, IsDigit);
    RunEndAt(s, 2, 3, IsDigit);
    assert s[0..1] == "1" && s[2..3] == "0";
    assert ScanNumber(s) == Some(NumberText(false, "1", "0", 0, 3));
    assert DecimalValue("1" + "0") == 10 by { assert "1" + "0" == "10"; assert "10"[..1] == "1"; assert "1"[..0] == ""; }
    assert Pow10(1) == 10;
  }

  /** A fraction is cut off toward zero: "-1.5" is -1. */
  lemma TruncationExample()
    ensures NumericIntValue("-1.5") == Some(-1)
  {
    var s := "-1.5";
    RunEndAt(s, 0, 0, IsNumericSpace);
    RunEndAt(s, 1, 2, IsDigit);
    RunEndAt(s, 3, 4, IsDigit);
    assert s[1..2] == "1" && s[3..4] == "5";
    assert ScanNumber(s) == Some(NumberText(true, "1", "5", 0, 4));
    assert DecimalValue("1" + "5") == 15 by { assert "1" + "5" == "15"; assert "15"[..1] == "1"; assert "1"[..0] == ""; }
    assert Pow10(1) == 10;
  }

  /** A point needs a digit on one side: ".5" is 0, and "." is no number. */
  lemma PointExamples()
    ensures NumericIntValue(".5") == Some(0)
    ensures NumericIntValue(".").None?
  {
    LeadingPointExample();
    LonePointRefused();
  }

  lemma LeadingPointExample()
    ensures NumericIntValue(".5") == Some(0)
  {
    var s := ".5";
    assert s[0] == '.' && !IsNumericSpace(s[0]) && !IsSign(s[0]) && !IsDigit(s[0]);
    RunEndAt(s, 0, 0, IsNumericSpace);
    RunEndAt(s, 0, 0, IsDigit);
    RunEndAt(s, 1, 2, IsDigit);
    assert s[0..0] == "" && s[1..2] == "5";
    assert ScanExponent(s, 2) == (0, 2);
    assert ScanNumber(s) == Some(NumberText(false, "", "5", 0, 2));
    assert DecimalValue("" + "5") == 5 by { assert "" + "5" == "5"; assert "5"[..0] == ""; }
    assert Pow10(1) == 10;
  }

  lemma LonePointRefused()
    ensures NumericIntValue(".").None?
  {
    RunEndAt(".", 0, 0, IsNumericSpace);
    RunEndAt(".", 0, 0, IsDigit);
    RunEndAt(".", 1, 1, IsDigit);
  }
}
