# A verified model of `runner.py`

`LLMFiles/runner.py` reads a data file line by line. It strips each line of
surrounding whitespace and converts it with `int()`. Lines that do not convert
(`ValueError`) are skipped; converted numbers at least the fixed cutoff 54623
are added to a running total, which is printed at the end.

The model has four modules:

- `Wrappers` — an `Option` type; `None` stands for `int()` raising `ValueError`.
- `Strip` — `str.strip()` with no argument on ASCII text, written as the two
  scans the interpreter performs (forward from the left, then backward from the
  right but never past the left stop).
- `Decimal` — `int(text)` in base 10 (optional sign, one or more digits,
  leading zeros allowed) and `str(n)`, with both round trips proved.
- `Runner` — the script: `SumQualifying` is the specification of the total
  (recursion on the last line), `Aggregate` is the `for` loop with its running
  total proved equal to `SumQualifying` of the lines read so far, and `Run` is
  the whole script with the cutoff fixed at `Cutoff` = 54623 and its printed
  output. The file's lines are a parameter; a line may still carry its line
  terminator, which `strip` removes.

The input `["54623", "100", "54624", "not_a_number", "  60000  "]` totals
54623 + 54624 + 60000 = 169247 (`Runner.Example`).

## Model

| member | source | states |
|---|---|---|
| `Strip.SkipForward` | LLMFiles/runner.py:7 | the left scan of `strip` stops at the first non-whitespace index, everything it passed is whitespace |
| `Strip.SkipBackward` | LLMFiles/runner.py:7 | the right scan stops after the last non-whitespace character, never below the left stop, everything it passed is whitespace |
| `Strip.Trim` | LLMFiles/runner.py:7 | `line.strip()`: the result starts and ends with non-whitespace (or is empty) and is no longer than the line |
| `Strip.TrimSplit` | LLMFiles/runner.py:7 | the line is whitespace, then the stripped text, then whitespace: `strip` removes only surrounding whitespace |
| `Strip.TrimTrimmed` | LLMFiles/runner.py:7 | text with no whitespace at either end is returned unchanged |
| `Strip.TrimIdempotent` | LLMFiles/runner.py:7 | stripping twice is stripping once |
| `Strip.TrimBlank` | LLMFiles/runner.py:7 | a whitespace-only line strips to the empty text |
| `Strip.TrimPadded` | LLMFiles/runner.py:7 | whitespace added on either side of a line does not change what `strip` returns |
| `Decimal.ValueOf` | LLMFiles/runner.py:7 | the value of a digit run is positive when its first digit is not `0` |
| `Decimal.ParseInt` | LLMFiles/runner.py:7 | `int()` succeeds exactly on an optional sign followed by at least one ASCII digit (no digit-count limit, see below); a minus sign gives a value at most 0, otherwise at least 0 |
| `Decimal.NatToString` | LLMFiles/runner.py:12 | `str(n)` of a non-negative number is a non-empty digit run that starts with `0` only for 0 itself |
| `Decimal.IntToString` | LLMFiles/runner.py:12 | `str(n)` starts with a minus sign exactly when `n` is negative |
| `Decimal.ValueOfNatToString` | LLMFiles/runner.py:12 | reading back the digits `str` writes gives the number |
| `Decimal.NatToStringValueOf` | LLMFiles/runner.py:12 | writing the value of a digit run without leading zero gives the run back |
| `Decimal.ParsePrinted` | LLMFiles/runner.py:7 | parse round trip: `int(str(n)) == n` for every integer |
| `Decimal.PrintedParse` | LLMFiles/runner.py:7 | print round trip: `str(int(s)) == s` for every canonical text `s` |
| `Decimal.PrintedIsCanonical` | LLMFiles/runner.py:12 | `str(n)` is always canonical: no leading zero, no `-0` |
| `Decimal.ValueBehindZero` | LLMFiles/runner.py:7 | a zero digit in front of a digit run leaves its value unchanged |
| `Decimal.ParsePlus` | LLMFiles/runner.py:7 | `int("+" + d) == int(d)` for every non-empty digit run `d`, and that is the value of `d` |
| `Decimal.ParseLeadingZero` | LLMFiles/runner.py:7 | a leading zero does not change what `int()` returns, unsigned, after `-` or after `+`; with `ParsePrinted`, `PrintedParse` and `ParsePlus` this fixes the value of every accepted text |
| `Decimal.RejectedTexts` | LLMFiles/runner.py:10-11 | `int()` raises on the empty text, words, decimals, a lone sign and inner spaces |
| `Decimal.AcceptedTexts` | LLMFiles/runner.py:7 | `int()` accepts a sign and leading zeros: `-17`, `+007`, `-0` |
| `Runner.QualifyingValue` | LLMFiles/runner.py:7-9 | a line yields a value exactly when it strips and parses to a number at least the cutoff, and that value is the parsed number |
| `Runner.Contribution` | LLMFiles/runner.py:6-11 | a qualifying line adds exactly the number it parses to, which is at least the cutoff; any other line adds 0 |
| `Runner.SumQualifying` | LLMFiles/runner.py:3-11 | the specified total is non-negative whenever the cutoff is |
| `Runner.CountQualifying` | LLMFiles/runner.py:8 | at most every line qualifies |
| `Runner.Aggregate` | LLMFiles/runner.py:3-11 | the loop's running total, starting from 0 and skipping lines that raise, equals `SumQualifying` of the lines |
| `Runner.PrintedTrimmed` | LLMFiles/runner.py:12 | printed integers have no surrounding whitespace |
| `Runner.TrimPrinted` | LLMFiles/runner.py:12 | a printed integer followed by its newline strips back to the digits |
| `Runner.Run` | LLMFiles/runner.py:2-12 | the script prints `SumQualifying` of its lines with cutoff 54623 and a newline, and reading that output back as the script reads a line gives the total |
| `Runner.SumAppend` | LLMFiles/runner.py:5-11 | the total over two runs of lines is the sum of their totals |
| `Runner.CountAppend` | LLMFiles/runner.py:5-11 | the count over two runs of lines is the sum of their counts |
| `Runner.NothingQualifies` | LLMFiles/runner.py:3 | empty input, or input in which no line qualifies, totals 0 |
| `Runner.SomethingQualifies` | LLMFiles/runner.py:8-9 | a qualifying line anywhere makes the count positive |
| `Runner.SumBound` | LLMFiles/runner.py:8-9 | for every cutoff the total is at least cutoff times the number of qualifying lines |
| `Runner.PositiveTotal` | LLMFiles/runner.py:8-9 | with a positive cutoff and a qualifying line the total is at least the cutoff |
| `Runner.ZeroIffNothingQualifies` | LLMFiles/runner.py:3-11 | with a positive cutoff the total is 0 exactly when no line qualifies |
| `Runner.PrefixMonotone` | LLMFiles/runner.py:9 | with a non-negative cutoff the running total never decreases and never goes below 0 |
| `Runner.LineEffect` | LLMFiles/runner.py:6-11 | a line that raises adds nothing and the lines after it still count; a parsed number is added exactly when it is at least the cutoff |
| `Runner.PrintedLine` | LLMFiles/runner.py:8 | the cutoff is inclusive: a line holding `str(n)` qualifies exactly when `n >= cutoff` and then adds `n` |
| `Runner.CutoffInclusive` | LLMFiles/runner.py:8 | a file holding only the cutoff totals the cutoff; one holding only the cutoff minus one totals 0 |
| `Runner.PaddedLine` | LLMFiles/runner.py:7 | whitespace around a line changes neither whether it qualifies nor what it adds |
| `Runner.SumPermutation` | LLMFiles/runner.py:5-11 | order independence: any permutation of the lines has the same total |
| `Runner.AllQualify` | LLMFiles/runner.py:5-11 | when every line is a number at least the cutoff, the total is their plain sum and every line counts |
| `Runner.Example` | LLMFiles/runner.py:2-12 | the lines `54623`, `100`, `54624`, `not_a_number`, `  60000  ` total 169247 |

## Left out

- Opening and reading `demo-audio-data.csv` (line 4): the lines are a parameter of `Aggregate` and `Run`, and a file that cannot be opened (an uncaught `OSError`) is not modelled.
- Printing (line 12): `Run` returns the text `print` would write instead of writing it.
- Python's universal-newline splitting of the file into lines: any line terminator left on a line is whitespace that `strip` removes (`Strip.TrimPadded`).
- Strip.IsSpace: only the ASCII whitespace of `str.isspace` (tab, line feed, vertical tab, form feed, carriage return, 0x1C-0x1F, space); Unicode whitespace such as U+00A0 or U+2028, which Python also strips, is not stripped by the model.
- Decimal.ParseInt: only ASCII digits; Python's `int()` also accepts Unicode decimal digits and single underscores between digits (`1_000`), which the model rejects.
- The exception machinery of the `try`/`except ValueError` block: the error is the `None` of `ParseInt`, and no other exception can arise inside the loop once the file is read.
- Integer width: Python integers are unbounded and so are Dafny's `int`; the only bound on them the script can meet is the digit-count limit below.
- Decimal.ParseInt: the interpreter's limit on integer-string conversion (`sys.get_int_max_str_digits()`, 4300 digits by default in Python 3.11 and later and in the 3.7.14-3.10.7 security releases, configurable, 0 disables it) is not modelled: CPython's `int()` raises `ValueError` on a base-10 text of more than that many digits, leading zeros included, so the script skips such a line (lines 10-11) while the model accepts it. The limit is a setting of the interpreter, not of the script, so the model follows an interpreter with the limit off.
- Runner.Run: for the same reason, when the total has more than 4300 digits (ten lines of 4300 nines suffice) CPython's `print` at line 12 raises an uncaught `ValueError` under the default limit and the script ends with no output, while `Run` still returns the printed total.
- Running the script twice on the same file gives the same output because `Run`'s result is a function of the lines alone; no separate lemma states this.
