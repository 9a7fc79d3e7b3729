/**
 pkg/mail/similarity.go: the score that decides whether two series carry the same name.

 Strings are sequences of ASCII characters, so that bytes, characters and case folding
 coincide; the ratio is an exact rational.
 */
module Similarity {
  import opened Wrappers
  import opened Subsequence

  /** row[j] is the answer for a against the first j characters of b, for every j below upto. */
  predicate RowFilled(row: seq<int>, a: string, b: string, upto: nat)
    requires upto <= |row| <= |b| + 1
  {
    forall j :: 0 <= j < upto ==> row[j] == LcsLen(a, b[..j])
  }

  predicate Cleared(row: seq<int>, from: nat) {
    forall j :: from <= j < |row| ==> row[j] == 0
  }

  /** The cell rule of the dynamic program. */
  lemma CellRule(a: string, b: string, i: nat, j: nat)
    requires 1 <= i <= |a| && 1 <= j <= |b|
    ensures LcsLen(a[..i], b[..j]) ==
      if a[i - 1] == b[j - 1] then LcsLen(a[..i - 1], b[..j - 1]) + 1
      else if LcsLen(a[..i - 1], b[..j]) > LcsLen(a[..i], b[..j - 1]) then LcsLen(a[..i - 1], b[..j])
      else LcsLen(a[..i], b[..j - 1])
  {
    assert Init(a[..i]) == a[..i - 1] && Init(b[..j]) == b[..j - 1];
  }

  lemma FirstRow(a: string, b: string, row: seq<int>)
    requires |row| == |b| + 1 && Cleared(row, 0)
    ensures RowFilled(row, a[..0], b, |b| + 1)
  {
  }

  /** The inner loop: row i of the table from row i-1. */
  method FillRow(a: string, b: string, i: nat, prev: array<int>, curr: array<int>)
    requires 1 <= i <= |a| && prev != curr && prev.Length == curr.Length == |b| + 1
    requires RowFilled(prev[..], a[..i - 1], b, |b| + 1) && Cleared(curr[..], 0)
    modifies curr
    ensures RowFilled(curr[..], a[..i], b, |b| + 1)
  {
    var n := |b|;
    var j := 1;
    ghost var before := prev[..];
    assert curr[..][0] == 0 && LcsLen(a[..i], b[..0]) == 0;
    while j <= n
      invariant 1 <= j <= n + 1
      invariant prev[..] == before
      invariant RowFilled(curr[..], a[..i], b, j)
      invariant Cleared(curr[..], j)
    {
      CellRule(a, b, i, j);
      ghost var row := curr[..];
      assert prev[j] == before[j] && prev[j - 1] == before[j - 1];
      assert curr[j - 1] == row[j - 1];
      if a[i - 1] == b[j - 1] {
        curr[j] := prev[j - 1] + 1;
      } else if prev[j] > curr[j - 1] {
        curr[j] := prev[j];
      } else {
        curr[j] := curr[j - 1];
      }
      assert curr[..] == row[j := LcsLen(a[..i], b[..j])];
      j := j + 1;
    }
  }

  method ClearRow(row: array<int>)
    modifies row
    ensures Cleared(row[..], 0)
  {
    var k := 0;
    while k < row.Length
      invariant 0 <= k <= row.Length
      invariant forall l :: 0 <= l < k ==> row[l] == 0
    {
      row[k] := 0;
      k := k + 1;
    }
  }

  /** The two-row dynamic program: prev holds row i-1, curr row i; they are swapped after each row. */
  method LongestCommonSubsequenceLen(a: string, b: string) returns (total: int)
    ensures total == LcsLen(a, b)
    ensures IsLongestLength(total, a, b)
  {
    var m, n := |a|, |b|;
    var prev := new int[n + 1](_ => 0);
    var curr := new int[n + 1](_ => 0);
    total := 0;
    FirstRow(a, b, prev[..]);
    var i := 1;
    while i <= m
      invariant 1 <= i <= m + 1
      invariant prev != curr && prev.Length == curr.Length == n + 1
      invariant fresh(prev) && fresh(curr)
      invariant RowFilled(prev[..], a[..i - 1], b, n + 1)
      invariant Cleared(curr[..], 0)
      invariant total == LcsLen(a[..i - 1], b)
    {
      FillRow(a, b, i, prev, curr);
      assert curr[..][n] == curr[n] && b[..n] == b;
      total := curr[n];
      prev, curr := curr, prev;
      ClearRow(curr);
      i := i + 1;
    }
    assert a[..m] == a;
    LcsLenIsLongest(a, b);
  }

  function Ratio(a: string, b: string): real {
    if a == b || |a| + |b| == 0 then 1.0
    else 2.0 * LcsLen(a, b) as real / (|a| + |b|) as real
  }

  method SequenceMatcherRatio(a: string, b: string) returns (r: real)
    ensures r == Ratio(a, b)
  {
    if a == b {
      return 1.0;
    }
    var total := |a| + |b|;
    if total == 0 {
      return 1.0;
    }
    var matches := LongestCommonSubsequenceLen(a, b);
    return 2.0 * matches as real / total as real;
  }

  lemma DivBounds(x: int, y: int)
    requires 0 <= x && 0 < y
    ensures (x as real / y as real) * y as real == x as real
    ensures 0.0 <= x as real / y as real
    ensures x as real / y as real <= 1.0 <==> x <= y
    ensures x as real / y as real == 1.0 <==> x == y
  {
  }

  lemma LcsOfItself(a: string)
    ensures LcsLen(a, a) == |a|
  {
    SubsequenceOfItself(a);
    NoneLonger(a, a, a);
    var c := Longest(a, a);
    SubsequenceLength(c, a);
  }

  function Share(matches: nat, total: nat): real
    requires total > 0
  {
    2.0 * matches as real / total as real
  }

  lemma ShareMonotone(x: nat, y: nat, total: nat)
    requires total > 0 && x <= y
    ensures Share(x, total) <= Share(y, total)
  {
  }

  lemma ShareOfAll(x: nat)
    requires x > 0
    ensures Share(x, x + x) == 1.0
  {
  }

  lemma RatioIsShare(a: string, b: string)
    requires |a| + |b| > 0
    ensures Ratio(a, b) == Share(LcsLen(a, b), |a| + |b|)
  {
    if a == b {
      LcsOfItself(a);
      ShareOfAll(|a|);
    }
  }

  /** No common subsequence accounts for more of the two strings than the ratio says. */
  lemma RatioBoundsMatches(a: string, b: string, c: string)
    requires |a| + |b| > 0 && IsCommon(c, a, b)
    ensures Share(|c|, |a| + |b|) <= Ratio(a, b)
  {
    RatioIsShare(a, b);
    NoneLonger(c, a, b);
    ShareMonotone(|c|, LcsLen(a, b), |a| + |b|);
  }

  /** And some common subsequence accounts for exactly that much. */
  lemma RatioIsAttained(a: string, b: string)
    requires |a| + |b| > 0
    ensures exists c :: IsCommon(c, a, b) && Share(|c|, |a| + |b|) == Ratio(a, b)
  {
    RatioIsShare(a, b);
    var c := Longest(a, b);
  }

  /** The ratio lies in 0..1, is symmetric, and is 1 exactly for equal strings. */
  lemma RatioIsSimilarity(a: string, b: string)
    ensures 0.0 <= Ratio(a, b) <= 1.0
    ensures Ratio(a, b) == Ratio(b, a)
    ensures Ratio(a, b) == 1.0 <==> a == b
  {
    LcsSymmetric(a, b);
    var c := Longest(a, b);
    SubsequenceLength(c, a);
    SubsequenceLength(c, b);
    if a != b {
      DivBounds(2 * LcsLen(a, b), |a| + |b|);
    }
  }

  // ---------------------------------------------------------------- names

  /** What \s matches, and what strings.TrimSpace removes: vertical tab is only in the latter. */
  const WHITESPACE: set<char> := {' ', '\t', '\n', '\U{000C}', '\r'}
  const TRIMMED: set<char> := WHITESPACE + {'\U{000B}'}

  function TrimLeft(s: string, space: set<char>): (r: string)
    ensures |r| <= |s|
  {
    if s != [] && s[0] in space then TrimLeft(s[1..], space) else s
  }

  function TrimRight(s: string, space: set<char>): (r: string)
    ensures |r| <= |s|
  {
    if s != [] && s[|s| - 1] in space then TrimRight(s[..|s| - 1], space) else s
  }

  /** Every run of white space becomes one space. */
  function CollapseSpace(s: string): string
    decreases |s|
  {
    if s == [] then []
    else if s[0] in WHITESPACE then [' '] + CollapseSpace(TrimLeft(s[1..], WHITESPACE))
    else [s[0]] + CollapseSpace(s[1..])
  }

  function NormalizeSpace(s: string): string {
    TrimRight(TrimLeft(CollapseSpace(s), TRIMMED), TRIMMED)
  }

  /** The index of the first ']', or the length. */
  function Closing(s: string): (k: nat)
    ensures k <= |s|
    ensures k < |s| ==> s[k] == ']'
  {
    if s == [] || s[0] == ']' then 0 else 1 + Closing(s[1..])
  }

  /** Drops leading "[...]" groups and the white space after each. */
  function DropPrefixes(s: string): string
    decreases |s|
  {
    if s == [] || s[0] != '[' || Closing(s) == |s| then s
    else DropPrefixes(TrimLeft(s[Closing(s) + 1..], WHITESPACE))
  }

  function StripPrefixes(name: string): string {
    NormalizeSpace(DropPrefixes(name))
  }

  function ToLower(s: string): (r: string)
    ensures |r| == |s|
  {
    seq(|s|, i requires 0 <= i < |s| =>
      if 'A' <= s[i] <= 'Z' then ('a' as int + (s[i] as int - 'A' as int)) as char else s[i])
  }

  function NameRatio(a: string, b: string): real {
    var a', b' := ToLower(StripPrefixes(a)), ToLower(StripPrefixes(b));
    if a' == "" || b' == "" then 0.0 else Ratio(a', b')
  }

  method NameSimilarity(a: string, b: string) returns (r: real)
    ensures r == NameRatio(a, b)
    ensures 0.0 <= r <= 1.0
    ensures r == 1.0 <==>
      StripPrefixes(a) != "" && StripPrefixes(b) != "" &&
      ToLower(StripPrefixes(a)) == ToLower(StripPrefixes(b))
  {
    var a', b' := ToLower(StripPrefixes(a)), ToLower(StripPrefixes(b));
    if a' == "" || b' == "" {
      return 0.0;
    }
    RatioIsSimilarity(a', b');
    r := SequenceMatcherRatio(a', b');
  }
}
