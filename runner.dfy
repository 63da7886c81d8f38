/** The script itself: every line that strips and parses to an integer at
    least the cutoff is added to a running total, which is then printed. */
module Runner {
  import opened Wrappers
  import opened Strip
  import opened Decimal

  /** The fixed threshold of the script. */
  const Cutoff: int := 54623

  /** The value a line adds to the total, if it adds one: the line strips and
      parses, and the number is not below the cutoff. */
  function QualifyingValue(line: string, cutoff: int): (r: Option<int>)
    ensures r.Some? ==> ParseInt(Trim(line)) == r && r.value >= cutoff
    ensures ParseInt(Trim(line)).Some? && ParseInt(Trim(line)).value >= cutoff
            ==> r == ParseInt(Trim(line))
  {
    match ParseInt(Trim(line))
    case None => None
    case Some(number) => if number >= cutoff then Some(number) else None
  }

  predicate Qualifies(line: string, cutoff: int) {
    QualifyingValue(line, cutoff).Some?
  }

  /** What a line adds to the total: its value when it qualifies, else 0. */
  function Contribution(line: string, cutoff: int): (v: int)
    ensures Qualifies(line, cutoff) ==> v >= cutoff && Some(v) == ParseInt(Trim(line))
    ensures !Qualifies(line, cutoff) ==> v == 0
  {
    match QualifyingValue(line, cutoff)
    case None => 0
    case Some(number) => number
  }

  /** The specification of the script's result: the sum of the values of the
      qualifying lines. */
  function SumQualifying(lines: seq<string>, cutoff: int): (total: int)
    ensures cutoff >= 0 ==> total >= 0
  {
    if lines == [] then 0
    else SumQualifying(lines[..|lines| - 1], cutoff) + Contribution(lines[|lines| - 1], cutoff)
  }

  /** How many lines qualify. */
  function CountQualifying(lines: seq<string>, cutoff: int): (count: nat)
    ensures count <= |lines|
  {
    if lines == [] then 0
    else CountQualifying(lines[..|lines| - 1], cutoff)
         + (if Qualifies(lines[|lines| - 1], cutoff) then 1 else 0)
  }

  /** The plain sum of a sequence of numbers. */
  function Total(values: seq<int>): int {
    if values == [] then 0 else Total(values[..|values| - 1]) + values[|values| - 1]
  }

  /** The loop of the script: starting from 0, each line is stripped and
      parsed; a line that fails to parse is skipped, and a parsed number is
      added when it is at least the cutoff. */
  method Aggregate(lines: seq<string>, cutoff: int) returns (total: int)
    ensures total == SumQualifying(lines, cutoff)
  {
    total := 0;
    var i := 0;
    while i < |lines|
      invariant 0 <= i <= |lines|
      invariant total == SumQualifying(lines[..i], cutoff)
    {
      match ParseInt(Trim(lines[i])) {
        case None =>
        case Some(number) =>
          if number >= cutoff {
            total := total + number;
          }
      }
      assert lines[..i + 1][..i] == lines[..i];
      i := i + 1;
    }
    assert lines[..i] == lines;
  }

  /** `str` of an integer has no whitespace at either end. */
  lemma {:induction false} PrintedTrimmed(n: int)
    ensures IsTrimmed(IntToString(n))
  {
    var s := IntToString(n);
    PrintedIsCanonical(n);
    assert IsDigit(s[|s| - 1]);
  }

  /** A printed integer with its line terminator strips back to the digits. */
  lemma {:induction false} TrimPrinted(n: int)
    ensures Trim(IntToString(n) + "\n") == IntToString(n)
  {
    var s := IntToString(n);
    PrintedTrimmed(n);
    assert s + "\n" == [] + s + "\n";
    TrimPadded([], s, "\n");
    TrimTrimmed(s);
  }

  /** The whole script on the lines of its input file with the fixed cutoff:
      the output is the total, printed on one line, and reading that line
      back as the script reads its input gives the total again. */
  method Run(lines: seq<string>) returns (output: string)
    ensures output == IntToString(SumQualifying(lines, Cutoff)) + "\n"
    ensures ParseInt(Trim(output)) == Some(SumQualifying(lines, Cutoff))
  {
    var total := Aggregate(lines, Cutoff);
    output := IntToString(total) + "\n";
    TrimPrinted(total);
    ParsePrinted(total);
  }

  /** The total over two runs of lines is the sum of their totals. */
  lemma {:induction false} SumAppend(a: seq<string>, b: seq<string>, cutoff: int)
    ensures SumQualifying(a + b, cutoff) == SumQualifying(a, cutoff) + SumQualifying(b, cutoff)
  {
    if b == [] {
      assert a + b == a;
    } else {
      var b' := b[..|b| - 1];
      assert (a + b)[..|a + b| - 1] == a + b';
      SumAppend(a, b', cutoff);
    }
  }

  /** The count over two runs of lines is the sum of their counts. */
  lemma {:induction false} CountAppend(a: seq<string>, b: seq<string>, cutoff: int)
    ensures CountQualifying(a + b, cutoff) == CountQualifying(a, cutoff) + CountQualifying(b, cutoff)
  {
    if b == [] {
      assert a + b == a;
    } else {
      var b' := b[..|b| - 1];
      assert (a + b)[..|a + b| - 1] == a + b';
      CountAppend(a, b', cutoff);
    }
  }

  /** Empty input, or input in which no line qualifies, gives 0. */
  lemma {:induction false} NothingQualifies(lines: seq<string>, cutoff: int)
    requires forall i :: 0 <= i < |lines| ==> !Qualifies(lines[i], cutoff)
    ensures SumQualifying(lines, cutoff) == 0
    ensures CountQualifying(lines, cutoff) == 0
  {
    if lines != [] {
      NothingQualifies(lines[..|lines| - 1], cutoff);
    }
  }

  /** A qualifying line is counted. */
  lemma {:induction false} SomethingQualifies(lines: seq<string>, cutoff: int, i: nat)
    requires i < |lines| && Qualifies(lines[i], cutoff)
    ensures CountQualifying(lines, cutoff) > 0
  {
    if i < |lines| - 1 {
      SomethingQualifies(lines[..|lines| - 1], cutoff, i);
    }
  }

  lemma {:induction false} MulSucc(a: int, c: int)
    ensures a * (c + 1) == a * c + a
  {
  }

  lemma {:induction false} MulNonNegative(a: int, b: int)
    requires a >= 0 && b >= 0
    ensures a * b >= 0
  {
  }

  /** Every added value is at least the cutoff and every other line adds 0,
      so the total is at least cutoff times the number of qualifying lines. */
  lemma {:induction false} SumBound(lines: seq<string>, cutoff: int)
    ensures SumQualifying(lines, cutoff) >= cutoff * CountQualifying(lines, cutoff)
  {
    if lines != [] {
      var init := lines[..|lines| - 1];
      var last := lines[|lines| - 1];
      SumBound(init, cutoff);
      var c := CountQualifying(init, cutoff);
      var sum := SumQualifying(init, cutoff);
      assert sum >= cutoff * c;
      if Qualifies(last, cutoff) {
        assert CountQualifying(lines, cutoff) == c + 1;
        assert SumQualifying(lines, cutoff) == sum + Contribution(last, cutoff);
        assert Contribution(last, cutoff) >= cutoff;
        MulSucc(cutoff, c);
      } else {
        assert CountQualifying(lines, cutoff) == c;
        assert SumQualifying(lines, cutoff) == sum;
      }
    }
  }

  /** With a positive cutoff, a total over at least one qualifying line is
      at least the cutoff. */
  lemma {:induction false} PositiveTotal(lines: seq<string>, cutoff: int)
    requires cutoff > 0 && CountQualifying(lines, cutoff) > 0
    ensures SumQualifying(lines, cutoff) >= cutoff
  {
    SumBound(lines, cutoff);
    var c := CountQualifying(lines, cutoff);
    MulSucc(cutoff, c - 1);
    MulNonNegative(cutoff, c - 1);
  }

  /** With a positive cutoff the total is 0 exactly when no line qualifies. */
  lemma {:induction false} ZeroIffNothingQualifies(lines: seq<string>, cutoff: int)
    requires cutoff > 0
    ensures SumQualifying(lines, cutoff) == 0
            <==> forall i :: 0 <= i < |lines| ==> !Qualifies(lines[i], cutoff)
  {
    if i :| 0 <= i < |lines| && Qualifies(lines[i], cutoff) {
      SomethingQualifies(lines, cutoff, i);
      PositiveTotal(lines, cutoff);
    } else {
      NothingQualifies(lines, cutoff);
    }
  }

  /** With a non-negative cutoff the running total never decreases: the
      total after i lines is at most the total after j >= i lines. */
  lemma {:induction false} PrefixMonotone(lines: seq<string>, i: nat, j: nat, cutoff: int)
    requires cutoff >= 0 && i <= j <= |lines|
    ensures 0 <= SumQualifying(lines[..i], cutoff) <= SumQualifying(lines[..j], cutoff)
  {
    assert lines[..j] == lines[..i] + lines[i..j];
    SumAppend(lines[..i], lines[i..j], cutoff);
  }

  /** The effect of one line anywhere in the input: a line that does not
      parse adds nothing and the lines after it still count; a parsed
      number is added exactly when it is at least the cutoff. */
  lemma {:induction false} LineEffect(a: seq<string>, line: string, b: seq<string>, cutoff: int)
    ensures ParseInt(Trim(line)).None? ==>
              SumQualifying(a + [line] + b, cutoff) == SumQualifying(a + b, cutoff)
    ensures ParseInt(Trim(line)).Some? && ParseInt(Trim(line)).value >= cutoff ==>
              SumQualifying(a + [line] + b, cutoff)
              == SumQualifying(a + b, cutoff) + ParseInt(Trim(line)).value
    ensures ParseInt(Trim(line)).Some? && ParseInt(Trim(line)).value < cutoff ==>
              SumQualifying(a + [line] + b, cutoff) == SumQualifying(a + b, cutoff)
  {
    SumAppend(a + [line], b, cutoff);
    SumAppend(a, b, cutoff);
    assert (a + [line])[..|a|] == a;
  }

  /** What a line adds, read off its parse. */
  lemma {:induction false} ContributionOf(line: string, cutoff: int)
    ensures ParseInt(Trim(line)).None? ==> Contribution(line, cutoff) == 0
    ensures ParseInt(Trim(line)).Some? ==>
              Contribution(line, cutoff)
              == if ParseInt(Trim(line)).value >= cutoff then ParseInt(Trim(line)).value else 0
  {
  }

  /** The cutoff is inclusive: a line holding the printed form of `n`
      qualifies exactly when `n` is at least the cutoff, and then adds `n`. */
  lemma {:induction false} PrintedLine(n: int, cutoff: int)
    ensures Qualifies(IntToString(n), cutoff) <==> n >= cutoff
    ensures Contribution(IntToString(n), cutoff) == if n >= cutoff then n else 0
  {
    PrintedTrimmed(n);
    TrimTrimmed(IntToString(n));
    ParsePrinted(n);
  }

  /** A file holding only the cutoff sums to the cutoff; one holding only the
      number just below it sums to 0. */
  lemma {:induction false} CutoffInclusive(cutoff: int)
    ensures SumQualifying([IntToString(cutoff)], cutoff) == cutoff
    ensures SumQualifying([IntToString(cutoff - 1)], cutoff) == 0
  {
    PrintedLine(cutoff, cutoff);
    PrintedLine(cutoff - 1, cutoff);
    SumSnoc([], IntToString(cutoff), cutoff);
    SumSnoc([], IntToString(cutoff - 1), cutoff);
  }

  /** Surrounding whitespace on a line does not change what it adds. */
  lemma {:induction false} PaddedLine(p: string, line: string, q: string, cutoff: int)
    requires AllSpace(p) && AllSpace(q)
    ensures Contribution(p + line + q, cutoff) == Contribution(line, cutoff)
    ensures Qualifies(p + line + q, cutoff) == Qualifies(line, cutoff)
  {
    TrimPadded(p, line, q);
  }

  /** Order independence: permuting the lines does not change the total. */
  lemma {:induction false} SumPermutation(a: seq<string>, b: seq<string>, cutoff: int)
    requires multiset(a) == multiset(b)
    ensures SumQualifying(a, cutoff) == SumQualifying(b, cutoff)
    decreases |a|
  {
    if a == [] {
      assert |b| == |multiset(b)| == 0;
    } else {
      var x := a[|a| - 1];
      var a' := a[..|a| - 1];
      assert a == a' + [x];
      assert x in multiset(b);
      var k :| 0 <= k < |b| && b[k] == x;
      var b' := b[..k] + b[k + 1..];
      assert b == b[..k] + [x] + b[k + 1..];
      assert multiset(a') == multiset(a) - multiset{x};
      assert multiset(b') == multiset(b) - multiset{x} by {
        assert b == b[..k] + [x] + b[k + 1..];
      }
      SumPermutation(a', b', cutoff);
      LineEffect(b[..k], x, b[k + 1..], cutoff);
    }
  }

  /** When every line is an integer at least the cutoff, the result is the
      plain sum of those integers and every line counts. */
  lemma {:induction false} AllQualify(lines: seq<string>, values: seq<int>, cutoff: int)
    requires |lines| == |values|
    requires forall i :: 0 <= i < |lines| ==>
               ParseInt(Trim(lines[i])) == Some(values[i]) && values[i] >= cutoff
    ensures SumQualifying(lines, cutoff) == Total(values)
    ensures CountQualifying(lines, cutoff) == |lines|
  {
    if lines != [] {
      AllQualify(lines[..|lines| - 1], values[..|values| - 1], cutoff);
    }
  }

  /** One more line adds its contribution. */
  lemma {:induction false} SumSnoc(init: seq<string>, line: string, cutoff: int)
    ensures SumQualifying(init + [line], cutoff)
            == SumQualifying(init, cutoff) + Contribution(line, cutoff)
  {
    assert (init + [line])[..|init|] == init;
  }

  /** A total over five lines, line by line. */
  lemma {:induction false} SumFive(lines: seq<string>, cutoff: int)
    requires |lines| == 5
    ensures SumQualifying(lines, cutoff)
            == Contribution(lines[0], cutoff) + Contribution(lines[1], cutoff)
               + Contribution(lines[2], cutoff) + Contribution(lines[3], cutoff)
               + Contribution(lines[4], cutoff)
  {
    assert lines == [lines[0]] + [lines[1]] + [lines[2]] + [lines[3]] + [lines[4]];
    SumSnoc([], lines[0], cutoff);
    SumSnoc([lines[0]], lines[1], cutoff);
    SumSnoc([lines[0]] + [lines[1]], lines[2], cutoff);
    SumSnoc([lines[0]] + [lines[1]] + [lines[2]], lines[3], cutoff);
    SumSnoc([lines[0]] + [lines[1]] + [lines[2]] + [lines[3]], lines[4], cutoff);
  }

  /** How the lines of the example input parse, one line per lemma. */
  lemma {:induction false} ParsesCutoff(line: string)
    requires line == "54623"
    ensures ParseInt(Trim(line)) == Some(54623)
  {
    assert DigitsBetween("54623", 0, 5);
    ParseUnsigned("54623");
    TrimTrimmed("54623");
  }

  lemma {:induction false} ParsesHundred(line: string)
    requires line == "100"
    ensures ParseInt(Trim(line)) == Some(100)
  {
    assert DigitsBetween("100", 0, 3);
    ParseUnsigned("100");
    TrimTrimmed("100");
  }

  lemma {:induction false} ParsesAboveCutoff(line: string)
    requires line == "54624"
    ensures ParseInt(Trim(line)) == Some(54624)
  {
    assert DigitsBetween("54624", 0, 5);
    ParseUnsigned("54624");
    TrimTrimmed("54624");
  }

  lemma {:induction false} ParsesWord(line: string)
    requires line == "not_a_number"
    ensures ParseInt(Trim(line)) == None
  {
    TrimTrimmed(line);
    assert !IsDigit(line[0]);
  }

  lemma {:induction false} ParsesPadded(line: string)
    requires line == "  60000  "
    ensures ParseInt(Trim(line)) == Some(60000)
  {
    PaddedParts(line);
    TrimPadded(line[..2], line[2..7], line[7..]);
    ParsesNumber(line[2..7]);
  }

  /** The padded example line is the number between two runs of spaces. */
  lemma {:induction false} PaddedParts(line: string)
    requires line == "  60000  "
    ensures line == line[..2] + line[2..7] + line[7..]
    ensures AllSpace(line[..2]) && AllSpace(line[7..]) && line[2..7] == "60000"
  {
    assert line == line[..2] + line[2..7] + line[7..];
  }

  lemma {:induction false} ParsesNumber(line: string)
    requires line == "60000"
    ensures ParseInt(Trim(line)) == Some(60000)
  {
    assert DigitsBetween("60000", 0, 5);
    ParseUnsigned("60000");
    TrimTrimmed("60000");
  }

  /** The example input: 54623 + 54624 + 60000, with the line holding 100
      below the cutoff and the word skipped. */
  lemma {:induction false} Example(lines: seq<string>)
    requires lines == ["54623", "100", "54624", "not_a_number", "  60000  "]
    ensures SumQualifying(lines, Cutoff) == 169247
  {
    ParsesCutoff(lines[0]);
    ParsesHundred(lines[1]);
    ParsesAboveCutoff(lines[2]);
    ParsesWord(lines[3]);
    ParsesPadded(lines[4]);
    ContributionOf(lines[0], Cutoff);
    ContributionOf(lines[1], Cutoff);
    ContributionOf(lines[2], Cutoff);
    ContributionOf(lines[3], Cutoff);
    ContributionOf(lines[4], Cutoff);
    SumFive(lines, Cutoff);
  }
}
