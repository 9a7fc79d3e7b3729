/** Text as lines: strings.Lines of Go's standard library, and picking lines by their index. */
module Lines {

  /** The length of the first line, with its newline if it has one. */
  function LineEnd(s: string): (k: nat)
    requires s != ""
    ensures 1 <= k <= |s|
    ensures forall i :: 0 <= i < k - 1 ==> s[i] != '\n'
    ensures k < |s| ==> s[k - 1] == '\n'
  {
    if s[0] == '\n' || |s| == 1 then 1 else 1 + LineEnd(s[1..])
  }

  function SplitLines(s: string): seq<string>
    decreases |s|
  {
    if s == "" then [] else [s[..LineEnd(s)]] + SplitLines(s[LineEnd(s)..])
  }

  function Concat(lines: seq<string>): string {
    if lines == [] then "" else lines[0] + Concat(lines[1..])
  }

  /** A line that ends with its only newline. */
  predicate IsFullLine(line: string) {
    line != "" && line[|line| - 1] == '\n' && forall i :: 0 <= i < |line| - 1 ==> line[i] != '\n'
  }

  /** Lines as SplitLines yields them: only the last one may lack its newline. */
  ghost predicate AreLines(lines: seq<string>) {
    && (forall i :: 0 <= i < |lines| - 1 ==> IsFullLine(lines[i]))
    && (lines != [] ==>
         var last := lines[|lines| - 1];
         IsFullLine(last) || (last != "" && '\n' !in last))
  }

  lemma {:induction false} SplitIsLossless(s: string)
    ensures Concat(SplitLines(s)) == s
    decreases |s|
  {
    if s != "" {
      var line, rest := s[..LineEnd(s)], s[LineEnd(s)..];
      SplitIsLossless(rest);
      assert SplitLines(s) == [line] + SplitLines(rest);
      ConcatOne(line, SplitLines(rest));
    }
  }

  lemma ConcatOne(line: string, lines: seq<string>)
    ensures Concat([line] + lines) == line + Concat(lines)
  {
    assert ([line] + lines)[1..] == lines;
  }

  lemma AddLine(line: string, lines: seq<string>)
    requires AreLines(lines)
    requires IsFullLine(line) || (line != "" && '\n' !in line && lines == [])
    ensures AreLines([line] + lines)
  {
  }

  lemma {:induction false} SplitIntoLines(s: string)
    ensures AreLines(SplitLines(s))
    decreases |s|
  {
    if s != "" {
      var k := LineEnd(s);
      SplitIntoLines(s[k..]);
      AddLine(s[..k], SplitLines(s[k..]));
    }
  }

  lemma {:induction false} ConcatAppend(a: seq<string>, b: seq<string>)
    ensures Concat(a + b) == Concat(a) + Concat(b)
  {
    if a == [] {
      assert a + b == b;
    } else {
      ConcatAppend(a[1..], b);
      assert (a + b)[1..] == a[1..] + b;
    }
  }

  lemma FirstLine(line: string, rest: string)
    requires IsFullLine(line) || (line != "" && '\n' !in line && rest == "")
    ensures LineEnd(line + rest) == |line|
  {
    var s := line + rest;
    var k := LineEnd(s);
    assert s[|line| - 1] == line[|line| - 1];
    assert k <= |line| ==> s[k - 1] == line[k - 1];
  }

  lemma {:induction false} SplitOfConcat(lines: seq<string>)
    requires AreLines(lines)
    ensures SplitLines(Concat(lines)) == lines
  {
    if lines != [] {
      var rest := Concat(lines[1..]);
      assert |lines| == 1 ==> rest == "";
      assert lines[0] != "";
      FirstLine(lines[0], rest);
      assert (lines[0] + rest)[|lines[0]|..] == rest;
      assert (lines[0] + rest)[..|lines[0]|] == lines[0];
      assert AreLines(lines[1..]);
      SplitOfConcat(lines[1..]);
    }
  }

  /** Lines are those of a text, and then those of their own, if and only if AreLines says so. */
  lemma LinesOfText(lines: seq<string>)
    ensures AreLines(lines) <==> exists s :: SplitLines(s) == lines
    ensures AreLines(lines) <==> SplitLines(Concat(lines)) == lines
  {
    if AreLines(lines) {
      SplitOfConcat(lines);
    }
    forall s | SplitLines(s) == lines ensures AreLines(lines) {
      SplitIntoLines(s);
    }
  }

  // ---------------------------------------------------------------- picking by index

  function Range(lo: nat, hi: nat): (r: seq<nat>)
    requires lo <= hi
    ensures |r| == hi - lo
    ensures forall i :: 0 <= i < |r| ==> r[i] == lo + i
  {
    seq(hi - lo, i requires 0 <= i < hi - lo => lo + i)
  }

  predicate Within(idx: seq<nat>, n: nat) {
    forall k :: 0 <= k < |idx| ==> idx[k] < n
  }

  function Pick(lines: seq<string>, idx: seq<nat>): (r: seq<string>)
    requires Within(idx, |lines|)
    ensures |r| == |idx|
    ensures forall k :: 0 <= k < |idx| ==> r[k] == lines[idx[k]]
  {
    seq(|idx|, k requires 0 <= k < |idx| => lines[idx[k]])
  }

  lemma PickRange(lines: seq<string>, lo: nat, hi: nat)
    requires lo <= hi <= |lines|
    ensures Pick(lines, Range(lo, hi)) == lines[lo..hi]
  {
  }

  lemma Cancel<T>(z: multiset<T>, x: multiset<T>, y: multiset<T>)
    requires z + x == z + y
    ensures x == y
  {
    assert x == (z + x) - z;
    assert y == (z + y) - z;
  }

  function Without<T>(s: seq<T>, k: nat): seq<T>
    requires k < |s|
  {
    s[..k] + s[k + 1..]
  }

  lemma MultisetWithout<T>(s: seq<T>, k: nat)
    requires k < |s|
    ensures multiset(s) == multiset([s[k]]) + multiset(Without(s, k))
  {
    assert s == s[..k] + [s[k]] + s[k + 1..];
  }

  lemma IndexOf<T>(b: seq<T>, x: T) returns (k: nat)
    requires x in multiset(b)
    ensures k < |b| && b[k] == x
  {
    k :| 0 <= k < |b| && b[k] == x;
  }

  lemma SameWithoutOne<T>(a: seq<T>, b: seq<T>, j: nat, k: nat)
    requires j < |a| && k < |b| && a[j] == b[k]
    ensures multiset(a) == multiset(b) <==> multiset(Without(a, j)) == multiset(Without(b, k))
  {
    MultisetWithout(a, j);
    MultisetWithout(b, k);
    if multiset(a) == multiset(b) {
      Cancel(multiset([a[j]]), multiset(Without(a, j)), multiset(Without(b, k)));
    }
  }

  lemma PickWithout(lines: seq<string>, a: seq<nat>, k: nat)
    requires Within(a, |lines|) && k < |a|
    ensures Within(Without(a, k), |lines|) && Pick(lines, Without(a, k)) == Without(Pick(lines, a), k)
  {
  }

  lemma {:induction false} PickPermutes(lines: seq<string>, a: seq<nat>, b: seq<nat>)
    requires Within(a, |lines|) && Within(b, |lines|)
    requires multiset(a) == multiset(b)
    ensures multiset(Pick(lines, a)) == multiset(Pick(lines, b))
    decreases |a|
  {
    if a == [] {
      assert |b| == |multiset(b)| == 0;
    } else {
      var k := IndexOf(b, a[0]);
      SameWithoutOne(a, b, 0, k);
      PickWithout(lines, a, 0);
      PickWithout(lines, b, k);
      PickPermutes(lines, Without(a, 0), Without(b, k));
      SameWithoutOne(Pick(lines, a), Pick(lines, b), 0, k);
    }
  }

  predicate Increasing(idx: seq<nat>) {
    forall i, j :: 0 <= i < j < |idx| ==> idx[i] < idx[j]
  }
}
