/** Python's `int(text)` (base 10) and `str(n)` on ASCII decimal text. */
module Decimal {
  import opened Wrappers

  predicate IsDigit(c: char) {
    '0' <= c <= '9'
  }

  /** Every character of `s` from `lo` up to `hi` is a digit. */
  predicate DigitsBetween(s: string, lo: nat, hi: nat)
    requires lo <= hi <= |s|
  {
    forall k :: lo <= k < hi ==> IsDigit(s[k])
  }

  function DigitValue(c: char): (d: nat)
    requires IsDigit(c)
    ensures d < 10
  {
    c as int - '0' as int
  }

  function DigitChar(d: nat): (c: char)
    requires d < 10
    ensures IsDigit(c) && DigitValue(c) == d
  {
    (d + '0' as int) as char
  }

  /** The value of the digits of `s` from `lo` up to `hi`, most significant
      first; it is positive as soon as the first digit is not `0`. */
  function ValueOf(s: string, lo: nat, hi: nat): (n: nat)
    requires lo <= hi <= |s| && DigitsBetween(s, lo, hi)
    ensures hi > lo && s[lo] != '0' ==> n > 0
    decreases hi
  {
    if hi == lo then 0 else ValueOf(s, lo, hi - 1) * 10 + DigitValue(s[hi - 1])
  }

  /** The length of the optional sign in front of the digits. */
  function SignLength(s: string): (k: nat)
    ensures k <= |s|
  {
    if s != [] && (s[0] == '+' || s[0] == '-') then 1 else 0
  }

  /** The texts `int()` accepts in base 10 once surrounding whitespace is
      gone: an optional sign and at least one digit. */
  predicate IsIntLiteral(s: string) {
    SignLength(s) < |s| && DigitsBetween(s, SignLength(s), |s|)
  }

  /** `int(s)` for base 10: an optional `+` or `-` followed by one or more
      ASCII digits; anything else is the `ValueError` case, `None`. */
  function ParseInt(s: string): (r: Option<int>)
    ensures r.Some? <==> IsIntLiteral(s)
    ensures r.Some? && s[0] == '-' ==> r.value <= 0
    ensures r.Some? && s[0] != '-' ==> r.value >= 0
  {
    var start := SignLength(s);
    if start < |s| && DigitsBetween(s, start, |s|) then
      var n: int := ValueOf(s, start, |s|);
      if s[0] == '-' then Some(-n) else Some(n)
    else
      None
  }

  /** `str(n)` for `n >= 0`: the shortest decimal rendering, which starts
      with `0` only for zero itself. */
  function NatToString(n: nat): (s: string)
    ensures s != [] && DigitsBetween(s, 0, |s|)
    ensures s[0] == '0' ==> n == 0 && |s| == 1
  {
    if n < 10 then [DigitChar(n)]
    else NatToString(n / 10) + [DigitChar(n % 10)]
  }

  /** `str(n)`: a minus sign for negative numbers, then the digits. */
  function IntToString(n: int): (s: string)
    ensures s != []
    ensures s[0] == '-' <==> n < 0
  {
    if n < 0 then "-" + NatToString(-n) else NatToString(n)
  }

  /** The texts `str` can produce: `0`, or a digit run without leading zero,
      optionally after a minus sign. */
  predicate IsCanonical(s: string) {
    if s != [] && s[0] == '-' then
      |s| > 1 && s[1] != '0' && DigitsBetween(s, 1, |s|)
    else
      s != [] && DigitsBetween(s, 0, |s|) && (s[0] == '0' ==> |s| == 1)
  }

  /** Digits copied to offset `a` of another text keep their value. */
  lemma {:induction false} ValueShifted(x: string, y: string, a: nat, lo: nat, hi: nat)
    requires lo <= hi <= |y| && a + hi <= |x| && DigitsBetween(y, lo, hi)
    requires forall m :: lo <= m < hi ==> x[a + m] == y[m]
    ensures DigitsBetween(x, a + lo, a + hi)
    ensures ValueOf(x, a + lo, a + hi) == ValueOf(y, lo, hi)
    decreases hi
  {
    assert DigitsBetween(x, a + lo, a + hi) by {
      forall k | a + lo <= k < a + hi ensures IsDigit(x[k]) {
        assert x[a + (k - a)] == y[k - a];
      }
    }
    if hi > lo {
      ValueShifted(x, y, a, lo, hi - 1);
      assert x[a + hi - 1] == y[hi - 1];
    }
  }

  /** Reading back the digits `NatToString` wrote gives the number. */
  lemma {:induction false} ValueOfNatToString(n: nat)
    ensures ValueOf(NatToString(n), 0, |NatToString(n)|) == n
  {
    if n >= 10 {
      var s := NatToString(n);
      var t := NatToString(n / 10);
      ValueOfNatToString(n / 10);
      ValueShifted(s, t, 0, 0, |t|);
    }
  }

  /** Writing the value of a canonical digit run gives the run back. */
  lemma {:induction false} NatToStringValueOf(s: string)
    requires s != [] && DigitsBetween(s, 0, |s|) && (s[0] == '0' ==> |s| == 1)
    ensures NatToString(ValueOf(s, 0, |s|)) == s
  {
    var last := s[|s| - 1];
    if |s| > 1 {
      var t := s[..|s| - 1];
      ValueShifted(s, t, 0, 0, |t|);
      NatToStringValueOf(t);
      var n := ValueOf(s, 0, |s|);
      assert n / 10 == ValueOf(t, 0, |t|) && n % 10 == DigitValue(last);
      assert DigitChar(DigitValue(last)) == last;
      assert s == t + [last];
    } else {
      assert DigitChar(DigitValue(last)) == last;
    }
  }

  /** `int()` on a minus sign followed by digits. */
  lemma {:induction false} ParseNegative(s: string)
    requires |s| > 1 && s[0] == '-' && DigitsBetween(s, 1, |s|)
    ensures ParseInt(s) == Some(-(ValueOf(s, 1, |s|) as int))
  {
  }

  /** `int()` on digits only. */
  lemma {:induction false} ParseUnsigned(s: string)
    requires s != [] && DigitsBetween(s, 0, |s|)
    ensures ParseInt(s) == Some(ValueOf(s, 0, |s|))
  {
  }

  /** Parse round trip: parsing the printed form of any integer gives it
      back. */
  lemma {:induction false} ParsePrinted(n: int)
    ensures ParseInt(IntToString(n)) == Some(n)
  {
    if n < 0 {
      ParsePrintedNegative(n);
    } else {
      ValueOfNatToString(n);
      ParseUnsigned(NatToString(n));
    }
  }

  /** `ParsePrinted` for a negative number. */
  lemma {:induction false} ParsePrintedNegative(n: int)
    requires n < 0
    ensures ParseInt(IntToString(n)) == Some(n)
  {
    var d := NatToString(-n);
    PrintedNegative(-n);
    ParseMinus(d);
    ValueOfNatToString(-n);
  }

  /** `int()` on a minus sign written in front of a digit run. */
  lemma {:induction false} ParseMinus(d: string)
    requires d != [] && DigitsBetween(d, 0, |d|)
    ensures ParseInt("-" + d) == Some(-(ValueOf(d, 0, |d|) as int))
  {
    ValueBehindSign('-', d, |d|);
    ParseNegative("-" + d);
  }

  /** A plus sign in front of a digit run does not change its value:
      `int("+" + d) == int(d)`. */
  lemma {:induction false} ParsePlus(d: string)
    requires d != [] && DigitsBetween(d, 0, |d|)
    ensures ParseInt("+" + d) == ParseInt(d) == Some(ValueOf(d, 0, |d|))
  {
    ValueBehindSign('+', d, |d|);
    ParseUnsigned(d);
  }

  /** A leading zero does not change the value of a digit run, with or
      without a sign in front: `int("0" + d) == int(d)`,
      `int("-0" + d) == int("-" + d)` and `int("+0" + d) == int("+" + d)`. */
  lemma {:induction false} ParseLeadingZero(d: string)
    requires d != [] && DigitsBetween(d, 0, |d|)
    ensures ParseInt("0" + d) == ParseInt(d)
    ensures ParseInt("-" + ("0" + d)) == ParseInt("-" + d)
    ensures ParseInt("+" + ("0" + d)) == ParseInt("+" + d)
  {
    var z := "0" + d;
    ValueBehindZero(d, |d|);
    ParseUnsigned(z);
    ParseUnsigned(d);
    ParseMinus(z);
    ParseMinus(d);
    ParsePlus(z);
    ParsePlus(d);
  }

  /** The digits of `d` keep their value behind a sign character. */
  lemma {:induction false} ValueBehindSign(c: char, d: string, hi: nat)
    requires hi <= |d| && DigitsBetween(d, 0, hi)
    ensures DigitsBetween([c] + d, 1, 1 + hi)
    ensures ValueOf([c] + d, 1, 1 + hi) == ValueOf(d, 0, hi)
    decreases hi
  {
    var s := [c] + d;
    forall k | 1 <= k < 1 + hi ensures IsDigit(s[k]) {
      assert s[k] == d[k - 1];
    }
    if hi > 0 {
      ValueBehindSign(c, d, hi - 1);
      assert s[hi] == d[hi - 1];
    }
  }

  /** The digits of `d` keep their value behind a zero digit. */
  lemma {:induction false} ValueBehindZero(d: string, hi: nat)
    requires hi <= |d| && DigitsBetween(d, 0, hi)
    ensures DigitsBetween("0" + d, 0, 1 + hi)
    ensures ValueOf("0" + d, 0, 1 + hi) == ValueOf(d, 0, hi)
    decreases hi
  {
    var s := "0" + d;
    forall k | 0 <= k < 1 + hi ensures IsDigit(s[k]) {
      if k > 0 {
        assert s[k] == d[k - 1];
      }
    }
    if hi > 0 {
      ValueBehindZero(d, hi - 1);
      assert s[hi] == d[hi - 1];
    }
  }

  /** Print round trip: a canonical text parses to a number whose printed
      form is that text. */
  lemma {:induction false} PrintedParse(s: string)
    requires IsCanonical(s)
    ensures ParseInt(s).Some? && IntToString(ParseInt(s).value) == s
  {
    if s[0] == '-' {
      PrintedParseNegative(s);
    } else {
      NatToStringValueOf(s);
      ParseUnsigned(s);
    }
  }

  /** `PrintedParse` for a text with a minus sign. */
  lemma {:induction false} PrintedParseNegative(s: string)
    requires |s| > 1 && s[0] == '-' && s[1] != '0' && DigitsBetween(s, 1, |s|)
    ensures ParseInt(s).Some? && IntToString(ParseInt(s).value) == s
  {
    var d := s[1..];
    var n := DigitsAfterSign(s);
    NatToStringValueOf(d);
    PrintedNegative(n);
    assert s == "-" + d;
  }

  /** The digits after the minus sign of `s`, read on their own, give the
      negated result of parsing `s`. */
  lemma {:induction false} DigitsAfterSign(s: string) returns (n: nat)
    requires |s| > 1 && s[0] == '-' && DigitsBetween(s, 1, |s|)
    ensures DigitsBetween(s[1..], 0, |s| - 1)
    ensures n == ValueOf(s[1..], 0, |s| - 1) && ParseInt(s) == Some(-(n as int))
    ensures s[1] != '0' ==> n > 0
  {
    var d := s[1..];
    assert forall m :: 0 <= m < |d| ==> s[1 + m] == d[m];
    ValueShifted(s, d, 1, 0, |d|);
    ParseNegative(s);
    n := ValueOf(d, 0, |d|);
  }

  /** `str` of a negative number is a minus sign and the digits of its
      magnitude. */
  lemma {:induction false} PrintedNegative(n: nat)
    requires n > 0
    ensures IntToString(-(n as int)) == "-" + NatToString(n)
  {
  }

  /** `str` writes canonical text only, so the two round trips together say
      that `str` and `int` are inverse on it. */
  lemma {:induction false} PrintedIsCanonical(n: int)
    ensures IsCanonical(IntToString(n))
  {
    if n < 0 {
      var s := IntToString(n);
      assert s[1..] == NatToString(-n);
    }
  }

  /** Texts `int()` rejects, as the script meets them in a data file. */
  lemma RejectedTexts()
    ensures ParseInt("") == None
    ensures ParseInt("abc") == None
    ensures ParseInt("12.5") == None
    ensures ParseInt("not_a_number") == None
    ensures ParseInt("+") == None && ParseInt("-") == None
    ensures ParseInt("1 2") == None
  {
    assert !IsDigit("12.5"[2]);
    assert !IsDigit("1 2"[1]);
  }

  /** Texts `int()` accepts: signs and leading zeros are allowed. */
  lemma AcceptedTexts()
    ensures ParseInt("-17") == Some(-17)
    ensures ParseInt("+007") == Some(7)
    ensures ParseInt("-0") == Some(0)
  {
    assert ValueOf("-17", 1, 2) == 1;
    assert ValueOf("+007", 1, 3) == 0;
    ParseNegative("-17");
    ParseNegative("-0");
  }
}
