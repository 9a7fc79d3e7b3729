/** Finite sets of integers: counting, the pigeonhole principle, extreme elements. */
module FiniteSets {

  function Interval(lo: int, hi: int): (s: set<int>)
    ensures forall x :: x in s <==> lo <= x < hi
    decreases hi - lo
  {
    if hi <= lo then {} else Interval(lo, hi - 1) + {hi - 1}
  }

  lemma {:induction false} IntervalSize(lo: int, hi: int)
    requires lo <= hi
    ensures |Interval(lo, hi)| == hi - lo
    decreases hi - lo
  {
    if lo < hi {
      IntervalSize(lo, hi - 1);
      assert Interval(lo, hi) == Interval(lo, hi - 1) + {hi - 1};
    } else {
      assert Interval(lo, hi) == {};
    }
  }

  lemma {:induction false} SubsetSize<T>(a: set<T>, b: set<T>)
    requires a <= b
    ensures |a| <= |b|
    ensures |a| == |b| ==> a == b
  {
    if a != {} {
      var x :| x in a;
      SubsetSize(a - {x}, b - {x});
    }
  }

  /** The members of s below n. */
  function Below(s: set<int>, n: int): set<int> {
    set x | x in s && x < n
  }

  /** k-1 distinct positive numbers lie below k exactly when these are all of 1..k-1. */
  lemma Pigeonhole(s: set<int>, n: int)
    requires n >= 1
    requires forall x :: x in s ==> x >= 1
    ensures |Below(s, n)| == n - 1 <==> Interval(1, n) <= s
  {
    IntervalSize(1, n);
    SubsetSize(Below(s, n), Interval(1, n));
    if Interval(1, n) <= s {
      assert Below(s, n) == Interval(1, n);
    }
  }

  /** A set of numbers of which each lies in 1..n has n elements exactly when it is 1..n. */
  lemma FullSet(s: set<int>, n: int)
    requires n >= 0
    requires forall x :: x in s ==> 1 <= x <= n
    ensures |s| <= n
    ensures |s| == n <==> s == Interval(1, n + 1)
  {
    IntervalSize(1, n + 1);
    SubsetSize(s, Interval(1, n + 1));
  }

  /** The end of the run of members that starts after k. */
  function RunEnd(s: set<int>, k: int): (p: int)
    ensures k <= p
    ensures p + 1 !in s
    ensures forall x :: k < x <= p ==> x in s
    decreases |set x | x in s && x > k|
  {
    if k + 1 in s then
      assert (set x | x in s && x > k) == (set x | x in s && x > k + 1) + {k + 1};
      RunEnd(s, k + 1)
    else k
  }

  lemma RunEndUnique(s: set<int>, k: int, p: int)
    requires k <= p && p + 1 !in s
    requires forall x :: k < x <= p ==> x in s
    ensures RunEnd(s, k) == p
  {
    var q := RunEnd(s, k);
    assert q < p ==> q + 1 in s;
    assert p < q ==> p + 1 in s;
  }

  /** The first run stops right before n exactly when 1..n-1 are members and n is not. */
  lemma RunStopsBefore(s: set<int>, n: int)
    requires n >= 1 && n !in s
    ensures RunEnd(s, 0) == n - 1 <==> Interval(1, n) <= s
  {
    var p := RunEnd(s, 0);
    if Interval(1, n) <= s {
      RunEndUnique(s, 0, n - 1);
    }
    if p == n - 1 {
      forall x | x in Interval(1, n) ensures x in s { assert 0 < x <= p; }
    }
  }

  /** Filling the slot right after the first run joins it to the run behind that slot. */
  lemma RunEndJoins(s: set<int>, n: int)
    requires n >= 1 && RunEnd(s, 0) == n - 1
    ensures RunEnd(s + {n}, 0) == RunEnd(s + {n}, n)
  {
    var t := s + {n};
    var q := RunEnd(t, n);
    forall x | 0 < x <= q ensures x in t {
      if x < n {
        assert x in s;
      }
    }
    RunEndUnique(t, 0, q);
  }

  /** Filling any other slot leaves the first run as it is. */
  lemma RunEndStays(s: set<int>, n: int)
    requires n >= 1 && n !in s && RunEnd(s, 0) != n - 1
    ensures RunEnd(s + {n}, 0) == RunEnd(s, 0)
  {
    RunEndUnique(s + {n}, 0, RunEnd(s, 0));
  }

  lemma Pick<T>(s: set<T>) returns (x: T)
    requires s != {}
    ensures x in s
  {
    x :| x in s;
  }

  predicate IsMaximum<T(==)>(x: T, s: set<T>, key: T -> int) {
    x in s && forall y :: y in s ==> key(y) <= key(x)
  }

  /** A non-empty finite set has an element with the largest key. */
  lemma {:induction false} HasMaximum<T>(s: set<T>, key: T -> int) returns (x: T)
    requires s != {}
    ensures IsMaximum(x, s, key)
  {
    x :| x in s;
    var rest := s - {x};
    if rest == {} {
      assert s == {x};
    } else {
      var z := HasMaximum(rest, key);
      assert forall y :: y in s ==> y == x || y in rest;
      x := if key(x) <= key(z) then z else x;
    }
  }
}
