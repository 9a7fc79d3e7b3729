/**
 Hunk headers of a unified diff: which lines ParsePatch takes for one, and which counts it reads from
 them, against headers as diff prints them.
 */
module HunkHeaders {
  import opened Wrappers
  import opened Decimals
  import opened DiffScan

  // ---------------------------------------------------------------- the shape of a header

  /** A count as written behind a start: nothing for 1, or a comma and a number, read into 64 bits. */
  predicate IsCount(text: string, n: int) {
    || (text == "" && n == 1)
    || (|text| > 1 && text[0] == ',' && AllDigits(text[1..]) &&
        n == if Worth(text[1..]) > 9223372036854775807 then 9223372036854775807 else Worth(text[1..]))
  }

  predicate IsStart(text: string) {
    text != "" && AllDigits(text)
  }

  /** "@@ -a,b +c,d @@" and anything behind it. */
  function Header(a: string, b: string, c: string, d: string, rest: string): string {
    "@@ -" + (a + (b + (" +" + (c + (d + (" @@" + rest))))))
  }

  // ---------------------------------------------------------------- numbers

  lemma {:induction false} DigitsBefore(s: string, rest: string)
    requires AllDigits(s) && (rest != "" ==> !IsDigit(rest[0]))
    ensures Digits(s + rest) == |s|
  {
    if s == "" {
      assert s + rest == rest;
    } else {
      DigitsBefore(s[1..], rest);
      assert (s + rest)[1..] == s[1..] + rest;
    }
  }

  lemma {:induction false} ValueIsWorth(s: string)
    requires AllDigits(s)
    ensures Value(s) == Worth(s)
  {
    if s != "" {
      var front := s[..|s| - 1];
      ValueIsWorth(front);
      OneMoreDigit(front, s[|s| - 1]);
      assert s == front + [s[|s| - 1]];
    }
  }

  lemma {:induction false} LeadingDigits(s: string)
    ensures AllDigits(s[..Digits(s)])
    ensures Digits(s) < |s| ==> !IsDigit(s[Digits(s)])
  {
    if s != "" && IsDigit(s[0]) {
      LeadingDigits(s[1..]);
      assert s[..Digits(s)] == [s[0]] + s[1..][..Digits(s[1..])];
    }
  }

  // ---------------------------------------------------------------- what is written is read

  lemma CountReads(text: string, n: int, rest: string)
    requires IsCount(text, n) && rest != "" && rest[0] == ' '
    ensures Count(text + rest) == (n, rest)
  {
    if text == "" {
      assert text + rest == rest;
    } else {
      var s, number := text + rest, text[1..];
      assert s[1..] == number + rest;
      DigitsBefore(number, rest);
      assert s[1..|number| + 1] == number && s[|number| + 1..] == rest;
      ValueIsWorth(number);
    }
  }

  lemma RangeReads(start: string, count: string, n: int, rest: string)
    requires IsStart(start) && IsCount(count, n) && rest != "" && rest[0] == ' '
    ensures HunkRange(start + (count + rest)) == Some((n, rest))
  {
    var behind := count + rest;
    assert behind[0] == if count == "" then ' ' else ',';
    DigitsBefore(start, behind);
    assert (start + behind)[|start|..] == behind;
    CountReads(count, n, rest);
  }

  lemma FrontOf(front: string, rest: string)
    ensures HasPrefix(front + rest, front) && (front + rest)[|front|..] == rest
  {
    assert (front + rest)[..|front|] == front;
  }

  /** The three parts of a header one after the other. */
  lemma PartsRead(first: string, m: int, second: string, p: int, rest: string)
    requires HunkRange(first) == Some((m, " +" + second)) && HunkRange(second) == Some((p, " @@" + rest))
    ensures ParseHunk("@@ -" + first) == Some((m, p))
  {
    FrontOf("@@ -", first);
    FrontOf(" +", second);
    FrontOf(" @@", rest);
  }

  /** Every header of that shape is read as its two counts, the old one first. */
  lemma HeaderReads(a: string, b: string, c: string, d: string, rest: string, minus: int, plus: int)
    requires IsStart(a) && IsStart(c) && IsCount(b, minus) && IsCount(d, plus)
    ensures ParseHunk(Header(a, b, c, d, rest)) == Some((minus, plus))
  {
    var end := " @@" + rest;
    var second := c + (d + end);
    RangeReads(a, b, minus, " +" + second);
    RangeReads(c, d, plus, end);
    PartsRead(a + (b + (" +" + second)), minus, second, plus, rest);
  }

  // ---------------------------------------------------------------- and nothing else is

  lemma CountShape(s: string) returns (text: string)
    ensures s == text + Count(s).1 && IsCount(text, Count(s).0)
  {
    text := "";
    if s != "" && s[0] == ',' && Digits(s[1..]) > 0 {
      var k := Digits(s[1..]);
      text := s[..k + 1];
      LeadingDigits(s[1..]);
      assert text[1..] == s[1..][..k] == s[1..k + 1];
      ValueIsWorth(text[1..]);
    }
  }

  lemma RangeShape(s: string) returns (start: string, count: string)
    requires HunkRange(s).Some?
    ensures IsStart(start) && s == start + (count + HunkRange(s).value.1) && IsCount(count, HunkRange(s).value.0)
  {
    var k := Digits(s);
    LeadingDigits(s);
    start := s[..k];
    count := CountShape(s[k..]);
    assert s == start + s[k..];
  }

  lemma CutFront(line: string, front: string) returns (rest: string)
    requires HasPrefix(line, front)
    ensures rest == line[|front|..] && line == front + rest
  {
    rest := line[|front|..];
  }

  lemma PartsShape(line: string) returns (first: string, second: string, rest: string, m: int, p: int)
    requires ParseHunk(line).Some?
    ensures line == "@@ -" + first && HunkRange(first) == Some((m, " +" + second))
    ensures HunkRange(second) == Some((p, " @@" + rest)) && ParseHunk(line) == Some((m, p))
  {
    first := CutFront(line, "@@ -");
    second := CutFront(HunkRange(first).value.1, " +");
    rest := CutFront(HunkRange(second).value.1, " @@");
    m, p := HunkRange(first).value.0, HunkRange(second).value.0;
  }

  /** A line that is read as a header has that shape, and its counts are those that are read. */
  lemma HeaderShape(line: string) returns (a: string, b: string, c: string, d: string, rest: string)
    requires ParseHunk(line).Some?
    ensures line == Header(a, b, c, d, rest) && IsStart(a) && IsStart(c)
    ensures IsCount(b, ParseHunk(line).value.0) && IsCount(d, ParseHunk(line).value.1)
  {
    var first, second, end, m, p := PartsShape(line);
    a, b := RangeShape(first);
    c, d := RangeShape(second);
    rest := end;
  }

  // ---------------------------------------------------------------- headers as diff prints them

  /** A count of one may be left out. */
  function PrintCount(n: nat, short: bool): string {
    if short && n == 1 then "" else "," + Dec(n)
  }

  function PrintHeader(a: nat, b: nat, c: nat, d: nat, shortOld: bool, shortNew: bool, rest: string): string {
    Header(Dec(a), PrintCount(b, shortOld), Dec(c), PrintCount(d, shortNew), rest)
  }

  lemma PrintedCount(n: nat, short: bool)
    requires n <= 9223372036854775807
    ensures IsCount(PrintCount(n, short), n)
  {
    DecIsWorth(n);
    assert ("," + Dec(n))[1..] == Dec(n);
  }

  /** Whatever the numbers, a printed header is read as its counts. */
  lemma PrintedHeaderReads(a: nat, b: nat, c: nat, d: nat, shortOld: bool, shortNew: bool, rest: string)
    requires b <= 9223372036854775807 && d <= 9223372036854775807
    ensures ParseHunk(PrintHeader(a, b, c, d, shortOld, shortNew, rest)) == Some((b, d))
  {
    DecIsWorth(a);
    DecIsWorth(c);
    PrintedCount(b, shortOld);
    PrintedCount(d, shortNew);
    HeaderReads(Dec(a), PrintCount(b, shortOld), Dec(c), PrintCount(d, shortNew), rest, b, d);
  }
}
