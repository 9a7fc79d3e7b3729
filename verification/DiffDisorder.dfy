/** Two mails for which ParsePatch returns lines in the wrong order: in the patch, and in the comment. */
module DiffDisorder {
  import opened Wrappers
  import opened DiffScan
  import opened DiffOrder

  const OLD_FILE: string := "--- a\n"
  const NEW_FILE: string := "+++ b\n"
  const HUNK: string := "@@ -1 +1 @@\n"
  const CONTEXT: string := " x\n"
  const NO_NEWLINE: string := "\\ No newline at end of file\n"

  /** The no-newline marker stands between the file lines and the hunk of the second file. */
  const MIXED: seq<string> := [OLD_FILE, NEW_FILE, HUNK, CONTEXT, OLD_FILE, NEW_FILE, NO_NEWLINE, HUNK]

  lemma OldFileMarks() returns (m: Marks)
    ensures Seen(OLD_FILE, m) && m.oldFile && !m.diffStart && !m.indexStart && m.hunk.None?
  {
    m := MarksOf(OLD_FILE);
    SeeOne(OLD_FILE);
    assert OLD_FILE[0] == '-';
    assert OLD_FILE[..4] == "--- ";
  }

  lemma NewFileMarks() returns (m: Marks)
    ensures Seen(NEW_FILE, m) && m.newFile
  {
    m := MarksOf(NEW_FILE);
    SeeOne(NEW_FILE);
    assert NEW_FILE[..4] == "+++ ";
  }

  lemma HunkParses()
    ensures ParseHunk(HUNK) == Some((1, 1))
  {
    assert HUNK[..4] == "@@ -";
    assert HUNK[4..] == "1 +1 @@\n";
    RangeOfOne(" +1 @@\n");
    assert " +1 @@\n"[..2] == " +";
    assert " +1 @@\n"[2..] == "1 @@\n";
    RangeOfOne(" @@\n");
    assert " @@\n"[..3] == " @@";
  }

  lemma HunkMarks() returns (m: Marks)
    ensures Seen(HUNK, m) && m.hunk == Some((1, 1))
  {
    m := MarksOf(HUNK);
    SeeOne(HUNK);
    HunkParses();
  }

  lemma RangeOfOne(rest: string)
    requires rest != "" && rest[0] == ' '
    ensures HunkRange("1" + rest) == Some((1, rest))
  {
    var s := "1" + rest;
    assert s[1..] == rest;
    assert Digits(rest) == 0;
    assert Digits(s) == 1;
  }

  lemma ContextMarks() returns (m: Marks)
    ensures Seen(CONTEXT, m) && OldLines(m) == 1 && NewLines(m) == 1
  {
    m := MarksOf(CONTEXT);
    SeeOne(CONTEXT);
    assert CONTEXT[0] == ' ';
  }

  lemma NoNewlineMarks() returns (m: Marks)
    ensures Seen(NO_NEWLINE, m) && m.noNewline && !m.oldFile && m.hunk.None?
  {
    m := MarksOf(NO_NEWLINE);
    SeeOne(NO_NEWLINE);
    assert NO_NEWLINE[..27] == "\\ No newline at end of file";
    assert NO_NEWLINE[0] == '\\';
  }

  /** What the machine needs to know of the eight lines. */
  predicate LikeMixed(ms: seq<Marks>) {
    && |ms| == 8
    && ms[0].oldFile && !ms[0].diffStart && !ms[0].indexStart
    && ms[1].newFile
    && ms[2].hunk == Some((1, 1))
    && OldLines(ms[3]) == 1 && NewLines(ms[3]) == 1
    && ms[4].oldFile && ms[4].hunk.None?
    && ms[5].newFile
    && ms[6].noNewline && !ms[6].oldFile && ms[6].hunk.None?
    && ms[7].hunk == Some((1, 1))
  }

  /** m is what the machine sees of the line. */
  ghost predicate Seen(line: string, m: Marks) {
    AllMarks([line]) == [m]
  }

  lemma SeeOne(line: string)
    ensures Seen(line, MarksOf(line))
  {
  }

  lemma SeeMore(lines: seq<string>, ms: seq<Marks>, line: string, m: Marks)
    requires AllMarks(lines) == ms && Seen(line, m)
    ensures AllMarks(lines + [line]) == ms + [m]
  {
    assert AllMarks(lines + [line]) == AllMarks(lines) + AllMarks([line]);
  }

  lemma SeeFour(a: string, b: string, c: string, d: string, ma: Marks, mb: Marks, mc: Marks, md: Marks)
    requires Seen(a, ma) && Seen(b, mb) && Seen(c, mc) && Seen(d, md)
    ensures AllMarks([a, b, c, d]) == [ma, mb, mc, md]
  {
    SeeMore([a], [ma], b, mb);
    assert [a] + [b] == [a, b] && [ma] + [mb] == [ma, mb];
    SeeMore([a, b], [ma, mb], c, mc);
    assert [a, b] + [c] == [a, b, c] && [ma, mb] + [mc] == [ma, mb, mc];
    SeeMore([a, b, c], [ma, mb, mc], d, md);
    assert [a, b, c] + [d] == [a, b, c, d] && [ma, mb, mc] + [md] == [ma, mb, mc, md];
  }

  lemma SeeBoth(a: seq<string>, b: seq<string>, ma: seq<Marks>, mb: seq<Marks>)
    requires AllMarks(a) == ma && AllMarks(b) == mb
    ensures AllMarks(a + b) == ma + mb
  {
  }

  lemma MixedMarks()
    ensures LikeMixed(AllMarks(MIXED))
  {
    var minus := OldFileMarks();
    var plus := NewFileMarks();
    var hunk := HunkMarks();
    var context := ContextMarks();
    var marker := NoNewlineMarks();
    SeeFour(OLD_FILE, NEW_FILE, HUNK, CONTEXT, minus, plus, hunk, context);
    SeeFour(OLD_FILE, NEW_FILE, NO_NEWLINE, HUNK, minus, plus, marker, hunk);
    var a, b := [OLD_FILE, NEW_FILE, HUNK, CONTEXT], [OLD_FILE, NEW_FILE, NO_NEWLINE, HUNK];
    SeeBoth(a, b, [minus, plus, hunk, context], [minus, plus, marker, hunk]);
    assert MIXED == a + b;
  }

  lemma RunStep(s: Scan, i: nat, ms: seq<Marks>, j: nat)
    requires j < |ms|
    ensures Run(s, i, ms[j..]) == Run(Next(s, i, ms[j]), i + 1, ms[j + 1..])
  {
    assert ms[j..][1..] == ms[j + 1..];
  }

  lemma FirstFile(ms: seq<Marks>)
    requires LikeMixed(ms)
    ensures Run(START, 0, ms) == Run(Scan(FileNew, 0, 0, 1, [0, 1, 2, 3], [], []), 4, ms[4..])
  {
    assert ms[0..] == ms;
    RunStep(START, 0, ms, 0);
    var s1 := Scan(FileOld, 0, 0, 0, [], [], [0]);
    assert Next(START, 0, ms[0]) == s1;
    RunStep(s1, 1, ms, 1);
    var s2 := Scan(FileNew, 0, 0, 0, [], [], [0, 1]);
    assert Next(s1, 1, ms[1]) == s2;
    RunStep(s2, 2, ms, 2);
    var s3 := Scan(HunkHeader, 1, 1, 0, [0, 1, 2], [], []);
    assert Next(s2, 2, ms[2]) == s3;
    RunStep(s3, 3, ms, 3);
    assert Next(s3, 3, ms[3]) == Scan(FileNew, 0, 0, 1, [0, 1, 2, 3], [], []);
  }

  lemma SecondFile(ms: seq<Marks>)
    requires LikeMixed(ms)
    ensures Run(Scan(FileNew, 0, 0, 1, [0, 1, 2, 3], [], []), 4, ms[4..]).patch == [0, 1, 2, 3, 4, 6, 5, 7]
  {
    var s4 := Scan(FileNew, 0, 0, 1, [0, 1, 2, 3], [], []);
    RunStep(s4, 4, ms, 4);
    var s5 := Scan(FileOld, 0, 0, 1, [0, 1, 2, 3, 4], [], []);
    assert Next(s4, 4, ms[4]) == s5;
    RunStep(s5, 5, ms, 5);
    var s6 := Scan(FileNew, 0, 0, 1, [0, 1, 2, 3, 4], [], [5]);
    assert Next(s5, 5, ms[5]) == s6;
    RunStep(s6, 6, ms, 6);
    var s7 := Scan(FileNew, 0, 0, 1, [0, 1, 2, 3, 4, 6], [], [5]);
    assert Next(s6, 6, ms[6]) == s7;
    RunStep(s7, 7, ms, 7);
    assert ms[8..] == [];
  }

  /** The marker overtakes the "+++" line that is still held back. */
  lemma MarkerOvertakes()
    ensures Result(MIXED).patch == [0, 1, 2, 3, 4, 6, 5, 7] && !InOrder(Result(MIXED))
  {
    var ms := AllMarks(MIXED);
    MixedMarks();
    FirstFile(ms);
    SecondFile(ms);
    var p := Result(MIXED).patch;
    assert p[5] > p[6];
  }

  // ---------------------------------------------------------------- behind a binary patch

  const DIFF: string := "diff --git a/x b/x\n"
  const INDEX: string := "index 1..2\n"
  const BINARY: string := "GIT binary patch\n"
  const TEXT: string := "text\n"

  /** A second diff right behind a binary patch, and a line of text. */
  const AFTER_BINARY: seq<string> := [DIFF, INDEX, BINARY, DIFF, TEXT]

  lemma DiffMarks() returns (m: Marks)
    ensures Seen(DIFF, m) && m.diffStart && m.diffWord
  {
    m := MarksOf(DIFF);
    SeeOne(DIFF);
    assert DIFF[..5] == "diff " && DIFF[..4] == "diff";
  }

  lemma IndexMarks() returns (m: Marks)
    ensures Seen(INDEX, m) && m.extended && !m.oldFile
  {
    m := MarksOf(INDEX);
    SeeOne(INDEX);
    assert INDEX[..6] == "index " == EXTENDED[10];
    assert INDEX[0] == 'i';
  }

  lemma NotExtended(line: string)
    requires line != "" && line[0] == 'G'
    ensures !IsExtendedHeader(line)
  {
    forall i | 0 <= i < |EXTENDED| ensures !HasPrefix(line, EXTENDED[i]) {
      assert EXTENDED[i][0] != 'G';
    }
  }

  lemma BinaryMarks() returns (m: Marks)
    ensures Seen(BINARY, m) && m.binary && !m.extended && !m.oldFile
  {
    m := MarksOf(BINARY);
    SeeOne(BINARY);
    NotExtended(BINARY);
    assert BINARY[..16] == "GIT binary patch";
    assert BINARY[0] == 'G';
  }

  lemma TextMarks() returns (m: Marks)
    ensures Seen(TEXT, m) && !m.diffStart && !m.indexStart && !m.oldFile
  {
    m := MarksOf(TEXT);
    SeeOne(TEXT);
    assert TEXT[0] == 't';
  }

  predicate LikeAfterBinary(ms: seq<Marks>) {
    && |ms| == 5
    && ms[0].diffStart
    && ms[1].extended && !ms[1].oldFile
    && ms[2].binary && !ms[2].extended && !ms[2].oldFile
    && ms[3].diffWord
    && !ms[4].diffStart && !ms[4].indexStart && !ms[4].oldFile
  }

  lemma AfterBinaryMarks()
    ensures LikeAfterBinary(AllMarks(AFTER_BINARY))
  {
    var diff := DiffMarks();
    var index := IndexMarks();
    var binary := BinaryMarks();
    var text := TextMarks();
    SeeFour(DIFF, INDEX, BINARY, DIFF, diff, index, binary, diff);
    SeeMore([DIFF, INDEX, BINARY, DIFF], [diff, index, binary, diff], TEXT, text);
    assert AFTER_BINARY == [DIFF, INDEX, BINARY, DIFF] + [TEXT];
  }

  lemma AfterBinaryRun(ms: seq<Marks>)
    requires LikeAfterBinary(ms)
    ensures Finish(Run(START, 0, ms)).comment == [4, 3]
  {
    assert ms[0..] == ms;
    RunStep(START, 0, ms, 0);
    var s1 := Scan(DiffHeader, 0, 0, 0, [], [], [0]);
    assert Next(START, 0, ms[0]) == s1;
    RunStep(s1, 1, ms, 1);
    var s2 := Scan(ExtHeader, 0, 0, 0, [], [], [0, 1]);
    assert Next(s1, 1, ms[1]) == s2;
    RunStep(s2, 2, ms, 2);
    var s3 := Scan(BinaryPatch, 0, 0, 0, [0, 1, 2], [], []);
    assert Next(s2, 2, ms[2]) == s3;
    RunStep(s3, 3, ms, 3);
    var s4 := Scan(Text, 0, 0, 0, [0, 1, 2], [], [3]);
    assert Next(s3, 3, ms[3]) == s4;
    RunStep(s4, 4, ms, 4);
    assert ms[5..] == [];
  }

  /** The line of text overtakes the "diff" line that is held back. */
  lemma TextOvertakes()
    ensures Result(AFTER_BINARY).comment == [4, 3] && !InOrder(Result(AFTER_BINARY))
  {
    AfterBinaryMarks();
    AfterBinaryRun(AllMarks(AFTER_BINARY));
    var c := Result(AFTER_BINARY).comment;
    assert c[0] > c[1];
  }
}
