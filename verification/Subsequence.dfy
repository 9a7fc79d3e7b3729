/**
 Common subsequences and the length of a longest one, with the proof that the recursive
 definition is what its name says: a common subsequence of that length exists and no common
 subsequence is longer.
 */
module Subsequence {
  import opened Wrappers

  /** Whether c can be obtained from s by deleting elements. */
  ghost predicate IsSubsequence<T(!new)>(c: seq<T>, s: seq<T>)
    decreases |s|
  {
    c == [] ||
    (s != [] && ((Last(c) == Last(s) && IsSubsequence(Init(c), Init(s))) || IsSubsequence(c, Init(s))))
  }

  ghost predicate IsCommon<T(!new)>(c: seq<T>, a: seq<T>, b: seq<T>) {
    IsSubsequence(c, a) && IsSubsequence(c, b)
  }

  function LcsLen<T(==)>(a: seq<T>, b: seq<T>): nat
    decreases |a| + |b|
  {
    if a == [] || b == [] then 0
    else if Last(a) == Last(b) then LcsLen(Init(a), Init(b)) + 1
    else if LcsLen(Init(a), b) > LcsLen(a, Init(b)) then LcsLen(Init(a), b)
    else LcsLen(a, Init(b))
  }

  lemma {:induction false} SubsequenceOfInit<T(!new)>(c: seq<T>, s: seq<T>)
    requires c != [] && IsSubsequence(c, s)
    ensures s != [] && IsSubsequence(Init(c), Init(s))
    decreases |s|
  {
    if !(Last(c) == Last(s) && IsSubsequence(Init(c), Init(s))) {
      SubsequenceOfInit(c, Init(s));
      SubsequenceExtends(Init(c), Init(s));
    }
  }

  lemma {:induction false} SubsequenceExtends<T(!new)>(c: seq<T>, s: seq<T>)
    requires s != [] && IsSubsequence(c, Init(s))
    ensures IsSubsequence(c, s)
  {
  }

  lemma {:induction false} SubsequenceLength<T(!new)>(c: seq<T>, s: seq<T>)
    requires IsSubsequence(c, s)
    ensures |c| <= |s|
    ensures |c| == |s| ==> c == s
    decreases |s|
  {
    if c != [] {
      if Last(c) == Last(s) && IsSubsequence(Init(c), Init(s)) {
        SubsequenceLength(Init(c), Init(s));
        assert c == Init(c) + [Last(c)] && s == Init(s) + [Last(s)];
      } else {
        SubsequenceLength(c, Init(s));
      }
    }
  }

  lemma {:induction false} SubsequenceOfItself<T(!new)>(s: seq<T>)
    ensures IsSubsequence(s, s)
    decreases |s|
  {
    if s != [] {
      SubsequenceOfItself(Init(s));
    }
  }

  /** No common subsequence is longer than LcsLen. */
  lemma {:induction false} NoneLonger<T(!new)>(c: seq<T>, a: seq<T>, b: seq<T>)
    requires IsCommon(c, a, b)
    ensures |c| <= LcsLen(a, b)
    decreases |a| + |b|
  {
    if c != [] {
      if Last(a) == Last(b) {
        SubsequenceOfInit(c, a);
        SubsequenceOfInit(c, b);
        NoneLonger(Init(c), Init(a), Init(b));
      } else if Last(c) != Last(a) {
        NoneLonger(c, Init(a), b);
      } else {
        NoneLonger(c, a, Init(b));
      }
    }
  }

  /** A common subsequence of length LcsLen exists. */
  lemma {:induction false} Longest<T(!new)>(a: seq<T>, b: seq<T>) returns (c: seq<T>)
    ensures IsCommon(c, a, b) && |c| == LcsLen(a, b)
    decreases |a| + |b|
  {
    if a == [] || b == [] {
      c := [];
    } else if Last(a) == Last(b) {
      var d := Longest(Init(a), Init(b));
      c := d + [Last(a)];
      assert Init(c) == d;
    } else if LcsLen(Init(a), b) > LcsLen(a, Init(b)) {
      c := Longest(Init(a), b);
      SubsequenceExtends(c, a);
    } else {
      c := Longest(a, Init(b));
      SubsequenceExtends(c, b);
    }
  }

  /** n is the length of a longest common subsequence: one of that length exists and none is longer. */
  ghost predicate IsLongestLength<T(!new)>(n: int, a: seq<T>, b: seq<T>) {
    && (exists c :: IsCommon(c, a, b) && |c| == n)
    && (forall c :: IsCommon(c, a, b) ==> |c| <= n)
  }

  lemma LcsLenIsLongest<T(!new)>(a: seq<T>, b: seq<T>)
    ensures IsLongestLength(LcsLen(a, b), a, b)
  {
    var c := Longest(a, b);
    forall d | IsCommon(d, a, b) ensures |d| <= LcsLen(a, b) {
      NoneLonger(d, a, b);
    }
  }

  lemma {:induction false} LcsSymmetric<T(!new)>(a: seq<T>, b: seq<T>)
    ensures LcsLen(a, b) == LcsLen(b, a)
  {
    var c := Longest(a, b);
    NoneLonger(c, b, a);
    var d := Longest(b, a);
    NoneLonger(d, a, b);
  }
}
