/** Python's `str.strip()` with no argument, restricted to ASCII text. */
module Strip {

  /** The ASCII characters Python's `str.isspace` accepts: tab, line feed,
      vertical tab, form feed, carriage return, the four information
      separators 0x1C..0x1F, and the space. */
  predicate IsSpace(c: char) {
    9 <= c as int <= 13 || 28 <= c as int <= 32
  }

  /** Every character of `s` is whitespace. */
  predicate AllSpace(s: string) {
    forall k :: 0 <= k < |s| ==> IsSpace(s[k])
  }

  /** `s` neither starts nor ends with whitespace. */
  predicate IsTrimmed(s: string) {
    s == [] || (!IsSpace(s[0]) && !IsSpace(s[|s| - 1]))
  }

  /** The left scan of `strip`: from index `k`, the first index that does not
      hold whitespace, or `|s|`. */
  function SkipForward(s: string, k: nat): (i: nat)
    requires k <= |s|
    ensures k <= i <= |s|
    ensures forall m :: k <= m < i ==> IsSpace(s[m])
    ensures i < |s| ==> !IsSpace(s[i])
    decreases |s| - k
  {
    if k < |s| && IsSpace(s[k]) then SkipForward(s, k + 1) else k
  }

  /** The right scan of `strip`: going down from `j` but never below `lo`,
      the end of the last character that is not whitespace, or `lo`. */
  function SkipBackward(s: string, lo: nat, j: nat): (e: nat)
    requires lo <= j <= |s|
    ensures lo <= e <= j
    ensures forall m :: e <= m < j ==> IsSpace(s[m])
    ensures e > lo ==> !IsSpace(s[e - 1])
  {
    if j > lo && IsSpace(s[j - 1]) then SkipBackward(s, lo, j - 1) else j
  }

  /** `line.strip()`: the slice between the two scans. The result has no
      whitespace at either end. */
  function Trim(s: string): (r: string)
    ensures IsTrimmed(r) && |r| <= |s|
  {
    var i := SkipForward(s, 0);
    s[i..SkipBackward(s, i, |s|)]
  }

  /** What `Trim` cuts off is whitespace only: `s` is its result with a run
      of whitespace before it, up to index `i`, and a run of whitespace
      after it. */
  lemma {:induction false} TrimSplit(s: string) returns (i: nat)
    ensures i + |Trim(s)| <= |s| && s == s[..i] + Trim(s) + s[i + |Trim(s)|..]
    ensures AllSpace(s[..i]) && AllSpace(s[i + |Trim(s)|..])
  {
    i := SkipForward(s, 0);
    var j := SkipBackward(s, i, |s|);
    TrimBetween(s, i, j);
    assert s == s[..i] + s[i..j] + s[j..];
  }

  /** The left scan stops exactly at the first non-whitespace index. */
  lemma {:induction false} SkipForwardAt(s: string, k: nat, i: nat)
    requires k <= i <= |s|
    requires forall m :: k <= m < i ==> IsSpace(s[m])
    requires i < |s| ==> !IsSpace(s[i])
    ensures SkipForward(s, k) == i
  {
  }

  /** The right scan stops exactly after the last non-whitespace index. */
  lemma {:induction false} SkipBackwardAt(s: string, lo: nat, j: nat, e: nat)
    requires lo <= e <= j <= |s|
    requires forall m :: e <= m < j ==> IsSpace(s[m])
    requires e > lo ==> !IsSpace(s[e - 1])
    ensures SkipBackward(s, lo, j) == e
  {
  }

  /** Text with no whitespace at either end is left as it is. */
  lemma {:induction false} TrimTrimmed(s: string)
    requires IsTrimmed(s)
    ensures Trim(s) == s
  {
    if s != [] {
      SkipForwardAt(s, 0, 0);
      SkipBackwardAt(s, 0, |s|, |s|);
    }
  }

  /** Stripping twice is stripping once. */
  lemma {:induction false} TrimIdempotent(s: string)
    ensures Trim(Trim(s)) == Trim(s)
  {
    TrimTrimmed(Trim(s));
  }

  /** Where the characters of a padded line come from. */
  lemma {:induction false} PaddedAt(p: string, s: string, q: string)
    requires AllSpace(p) && AllSpace(q)
    ensures forall m :: 0 <= m < |p| ==> IsSpace((p + s + q)[m])
    ensures forall m :: |p| <= m < |p| + |s| ==> (p + s + q)[m] == s[m - |p|]
    ensures forall m :: |p| + |s| <= m < |p + s + q| ==> IsSpace((p + s + q)[m])
  {
    var x := p + s + q;
    forall m | |p| + |s| <= m < |x| ensures IsSpace(x[m]) {
      assert x[m] == q[m - |p| - |s|];
    }
  }

  /** A line that is whitespace only strips to nothing. */
  lemma {:induction false} TrimBlank(x: string)
    requires AllSpace(x)
    ensures Trim(x) == []
  {
    SkipForwardAt(x, 0, |x|);
  }

  /** A line that holds `s` at offset `a` and whitespace everywhere else
      strips to what `s` strips to. */
  lemma {:induction false} TrimShifted(x: string, s: string, a: nat)
    requires a + |s| <= |x|
    requires forall m :: 0 <= m < a ==> IsSpace(x[m])
    requires forall m :: a <= m < a + |s| ==> x[m] == s[m - a]
    requires forall m :: a + |s| <= m < |x| ==> IsSpace(x[m])
    ensures Trim(x) == Trim(s)
  {
    var i := SkipForward(s, 0);
    if i == |s| {
      assert AllSpace(x) by {
        forall m | 0 <= m < |x| ensures IsSpace(x[m]) {
          if a <= m < a + |s| {
            assert x[m] == s[m - a];
          }
        }
      }
      TrimBlank(x);
    } else {
      TrimShiftedText(x, s, a, i, SkipBackward(s, i, |s|));
    }
  }

  /** `TrimShifted` when `s` holds text between `i` and `j`. */
  lemma {:induction false} TrimShiftedText(x: string, s: string, a: nat, i: nat, j: nat)
    requires a + |s| <= |x|
    requires forall m :: 0 <= m < a ==> IsSpace(x[m])
    requires forall m :: a <= m < a + |s| ==> x[m] == s[m - a]
    requires forall m :: a + |s| <= m < |x| ==> IsSpace(x[m])
    requires i < |s| && i == SkipForward(s, 0) && j == SkipBackward(s, i, |s|)
    ensures Trim(x) == Trim(s)
  {
    assert x[a + i] == s[i];
    SkipForwardAt(x, 0, a + i);
    assert x[a + j - 1] == s[j - 1];
    assert forall m :: a + j <= m < |x| ==> IsSpace(x[m]) by {
      forall m | a + j <= m < |x| ensures IsSpace(x[m]) {
        if m < a + |s| {
          assert x[m] == s[m - a];
        }
      }
    }
    SkipBackwardAt(x, a + i, |x|, a + j);
    TrimBetween(x, a + i, a + j);
    TrimBetween(s, i, j);
    SliceShifted(x, s, a, i, j);
  }

  /** `Trim` is the slice between where the two scans stop. */
  lemma {:induction false} TrimBetween(s: string, i: nat, j: nat)
    requires i <= |s| && i == SkipForward(s, 0)
    requires i <= j <= |s| && j == SkipBackward(s, i, |s|)
    ensures Trim(s) == s[i..j]
  {
  }

  /** A slice of `s` is the same slice of a line holding `s` at offset `a`. */
  lemma {:induction false} SliceShifted(x: string, s: string, a: nat, i: nat, j: nat)
    requires a + |s| <= |x| && i <= j <= |s|
    requires forall m :: a <= m < a + |s| ==> x[m] == s[m - a]
    ensures x[a + i..a + j] == s[i..j]
  {
    forall k | 0 <= k < j - i ensures x[a + i..a + j][k] == s[i..j][k] {
      assert x[a + i + k] == s[i + k];
    }
  }

  /** Whitespace tolerance: padding a line with whitespace on either side
      does not change what `strip` returns. */
  lemma {:induction false} TrimPadded(p: string, s: string, q: string)
    requires AllSpace(p) && AllSpace(q)
    ensures Trim(p + s + q) == Trim(s)
  {
    PaddedAt(p, s, q);
    TrimShifted(p + s + q, s, |p|);
  }
}
