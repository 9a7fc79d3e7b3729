/**
 Mails that ParsePatch does not part cleanly: mails without a diff, which go to the comment whole, and
 diffs that end in a binary patch, which take everything behind it along.
 */
module PlainMails {
  import opened Wrappers
  import opened Lines
  import opened DiffScan
  import opened DiffGrammar
  import opened DiffRoundTrip

  // ---------------------------------------------------------------- no diff, no patch

  /** At line i two file lines stand in a row, and behind them a hunk header or another old file line. */
  predicate StartsDiff(ms: seq<Marks>, i: nat) {
    && i + 2 < |ms| && ms[i].oldFile && ms[i + 1].newFile
    && (ms[i + 2].hunk.Some? || ms[i + 2].oldFile)
  }

  predicate Quiet(ms: seq<Marks>) {
    && (forall i :: 0 <= i < |ms| ==> !ms[i].diffStart && !ms[i].indexStart)
    && (forall i :: 0 <= i < |ms| ==> !StartsDiff(ms, i))
  }

  /** The first i lines are in the comment, but for the file lines right before i. */
  predicate Waiting(s: Scan, ms: seq<Marks>, i: nat)
    requires i <= |ms|
  {
    && s.hunk == 0 && s.patch == [] && s.comment + s.buf == Range(0, i)
    && match s.state
       case Text => s.buf == []
       case FileOld => i >= 1 && ms[i - 1].oldFile
       case FileNew => i >= 2 && ms[i - 2].oldFile && ms[i - 1].newFile
       case _ => false
  }

  lemma WaitingNext(s: Scan, ms: seq<Marks>, i: nat)
    requires i < |ms| && Quiet(ms) && Waiting(s, ms, i)
    ensures Waiting(Next(s, i, ms[i]), ms, i + 1)
  {
    assert Range(0, i + 1) == Range(0, i) + [i];
    if s.state.FileNew? {
      assert !StartsDiff(ms, i - 2);
    }
  }

  lemma {:induction false} WaitingRun(s: Scan, ms: seq<Marks>, i: nat)
    requires i <= |ms| && Quiet(ms) && Waiting(s, ms, i)
    ensures var t := Finish(Run(s, i, ms[i..])); t.patch == [] && t.comment == Range(0, |ms|)
    decreases |ms| - i
  {
    if i < |ms| {
      WaitingNext(s, ms, i);
      assert ms[i..][1..] == ms[i + 1..];
      WaitingRun(Next(s, i, ms[i]), ms, i + 1);
    }
  }

  /** The file lines of a diff at line i, with what makes them one behind them. */
  predicate DiffAt(lines: seq<string>, i: nat) {
    && i + 2 < |lines| && HasPrefix(lines[i], "--- ") && HasPrefix(lines[i + 1], "+++ ")
    && (ParseHunk(lines[i + 2]).Some? || HasPrefix(lines[i + 2], "--- "))
  }

  predicate HasNoDiff(lines: seq<string>) {
    && (forall i :: 0 <= i < |lines| ==> !IsLead(lines[i]))
    && (forall i :: 0 <= i < |lines| ==> !DiffAt(lines, i))
  }

  lemma QuietMarks(lines: seq<string>)
    requires HasNoDiff(lines)
    ensures Quiet(AllMarks(lines))
  {
    var ms := AllMarks(lines);
    forall i | 0 <= i < |ms| ensures !StartsDiff(ms, i) {
      assert !DiffAt(lines, i);
    }
  }

  /** A mail without a diff has no patch, whatever dashes and pluses stand in it: all of it is the comment. */
  lemma NoDiffNoPatch(content: string)
    requires HasNoDiff(SplitLines(content))
    ensures var lines := SplitLines(content);
      PatchLines(lines) == [] && CommentLines(lines) == lines && Concat(CommentLines(lines)) == content
  {
    var lines := SplitLines(content);
    var ms := AllMarks(lines);
    QuietMarks(lines);
    assert ms[0..] == ms && Range(0, 0) == [];
    WaitingRun(START, ms, 0);
    NoLineIsLost(lines);
    PickRange(lines, 0, |lines|);
    SplitIsLossless(content);
  }

  // ---------------------------------------------------------------- a binary patch at the end

  lemma {:induction false} DataRun(s: Scan, com: seq<nat>, lo: nat, i: nat, data: seq<Marks>)
    requires lo <= i && Held(s, com, lo, i) && s.state.BinaryPatch? && s.buf == []
    requires forall k :: 0 <= k < |data| ==> !data[k].diffWord
    ensures var t := Run(s, i, data); Held(t, com, lo, i + |data|) && t.buf == []
    decreases |data|
  {
    if data != [] {
      HeldNext(s, com, lo, i, data[0]);
      DataRun(Next(s, i, data[0]), com, lo, i + 1, data[1..]);
    }
  }

  predicate BinaryLine(m: Marks) {
    m.binary && !m.extended && !m.oldFile
  }

  predicate BinaryOk(header: File<Marks>, binary: Marks, data: seq<Marks>) {
    && header.Bare? && FileOk(header) && BinaryLine(binary)
    && forall k :: 0 <= k < |data| ==> !data[k].diffWord
  }

  lemma BinaryRun(s: Scan, com: seq<nat>, lo: nat, i: nat, header: File<Marks>, binary: Marks, data: seq<Marks>)
    returns (t: Scan)
    requires lo <= i && Held(s, com, lo, i) && Between(s) && BinaryOk(header, binary, data)
    ensures Moves(s, i, FileText(header) + ([binary] + data), t)
    ensures Held(t, com, lo, i + |FileText(header)| + 1 + |data|) && t.buf == []
  {
    var j := i + |FileText(header)|;
    FileRun(s, com, lo, i, header);
    var u := Run(s, i, FileText(header));
    HeldNext(u, com, lo, j, binary);
    RunOne(u, j, binary);
    var v := Next(u, j, binary);
    DataRun(v, com, lo, j + 1, data);
    t := Run(v, j + 1, data);
    MovesOn(u, j, [binary], v, data, t);
    MovesOn(s, i, FileText(header), u, [binary] + data, t);
  }

  lemma FilesThenBinary(s: Scan, com: seq<nat>, lo: nat, i: nat, files: seq<File<Marks>>, a: seq<Marks>,
                        header: File<Marks>, binary: Marks, data: seq<Marks>, b: seq<Marks>) returns (t: Scan)
    requires lo <= i && Held(s, com, lo, i) && Between(s) && FilesOk(files) && BinaryOk(header, binary, data)
    requires a == DiffText(files) && b == FileText(header) + ([binary] + data)
    ensures Moves(s, i, a + b, t) && Held(t, com, lo, i + |a| + |b|) && t.buf == []
  {
    if files == [] {
      assert a + b == b;
      t := BinaryRun(s, com, lo, i, header, binary, data);
    } else {
      var u := DiffRun(s, com, lo, i, files);
      t := BinaryRun(u, com, lo, i + |a|, header, binary, data);
      MovesOn(s, i, a, u, b, t);
    }
  }

  lemma TextThenBinary(text: seq<Marks>, files: seq<File<Marks>>, a: seq<Marks>, header: File<Marks>, binary: Marks,
                       data: seq<Marks>, b: seq<Marks>, n: nat) returns (t: Scan)
    requires (forall k :: 0 <= k < |text| ==> Plain(text[k])) && FilesOk(files) && BinaryOk(header, binary, data)
    requires a == DiffText(files) && b == FileText(header) + ([binary] + data) && n == |text| + |a| + |b|
    ensures Moves(START, 0, text + (a + b), t) && Parted(Finish(t), |text|, n, n)
  {
    StartsPlain(text);
    var s := Run(START, 0, text);
    assert s.patch + s.buf == Range(|text|, |text|);
    t := FilesThenBinary(s, Range(0, |text|), |text|, |text|, files, a, header, binary, data, b);
    MovesOn(START, 0, text, s, a + b, t);
    PatchAlone(t, |text|, n);
    assert Range(0, |text|) + Range(n, n) == Range(0, |text|);
  }

  /** A file with extended headers, the line that announces a binary patch, and no line behind it that starts "diff". */
  ghost predicate IsBinary(header: File<string>, binary: string, data: seq<string>) {
    && header.Bare? && IsFile(header) && HasPrefix(binary, "GIT binary patch")
    && forall k :: 0 <= k < |data| ==> !HasPrefix(data[k], "diff")
  }

  lemma BinaryStays(header: File<string>, binary: string, data: seq<string>)
    requires IsBinary(header, binary, data)
    ensures BinaryOk(MarkFile(header), MarksOf(binary), AllMarks(data))
  {
    FileStays(header);
    assert binary[0] == 'G';
    forall i | 0 <= i < |EXTENDED| ensures !HasPrefix(binary, EXTENDED[i]) {
      assert EXTENDED[i][0] != 'G';
    }
  }

  lemma BinaryText(header: File<string>, binary: string, data: seq<string>)
    ensures AllMarks(FileText(header) + ([binary] + data)) ==
            FileText(MarkFile(header)) + ([MarksOf(binary)] + AllMarks(data))
  {
    FileTextStays(header);
    AllMarksOfOne(binary);
    AllMarksAppend([binary], data);
    AllMarksAppend(FileText(header), [binary] + data);
  }

  lemma LinesOfBinary(text: seq<string>, files: seq<File<string>>, a: seq<string>, header: File<string>, binary: string,
                      data: seq<string>, b: seq<string>, n: nat)
    requires IsPlain(text) && AreFiles(files) && IsBinary(header, binary, data)
    requires a == DiffText(files) && b == FileText(header) + ([binary] + data) && n == |text| + |a| + |b|
    ensures Parted(Result(text + (a + b)), |text|, n, n)
  {
    FilesStay(files);
    BinaryStays(header, binary, data);
    DiffTextStays(files);
    BinaryText(header, binary, data);
    AllMarksAppend(a, b);
    AllMarksAppend(text, a + b);
    var t := TextThenBinary(AllMarks(text), MarkFiles(files), AllMarks(a), MarkFile(header), MarksOf(binary),
                            AllMarks(data), AllMarks(b), n);
    PartedByMarks(text + (a + b), AllMarks(text) + (AllMarks(a) + AllMarks(b)), t, |text|, n, n);
  }

  /**
   A diff whose last file is a binary patch has no trailer: every line behind the text before the diff is
   in the patch, files that would otherwise be held back included.
   */
  lemma BinaryTakesTheRest(text: seq<string>, files: seq<File<string>>, header: File<string>, binary: string,
                           data: seq<string>)
    requires IsPlain(text) && AreFiles(files) && IsBinary(header, binary, data)
    ensures var b := FileText(header) + ([binary] + data);
      && PatchLines(text + (DiffText(files) + b)) == DiffText(files) + b
      && CommentLines(text + (DiffText(files) + b)) == text
  {
    var a, b := DiffText(files), FileText(header) + ([binary] + data);
    var n := |text| + |a| + |b|;
    LinesOfBinary(text, files, a, header, binary, data, b, n);
    assert text + (a + b) + [] == text + (a + b) && text + [] == text;
    PickParts(text, a + b, [], |text|, n, n);
  }

  // ---------------------------------------------------------------- dashes behind a diff

  /** Lines behind a diff of which the first looks like that of a file, the second does not go on with it. */
  predicate DashesOk(dash: Marks, rest: seq<Marks>) {
    && OldFileLine(dash) && (rest != [] ==> !rest[0].newFile)
    && forall k :: 1 <= k < |rest| ==> Filler(rest[k])
  }

  lemma DashesRun(s: Scan, lo: nat, i: nat, dash: Marks, rest: seq<Marks>) returns (t: Scan)
    requires lo <= i && AtEnd(s, lo, i, i, false) && DashesOk(dash, rest)
    ensures Moves(s, i, [dash] + rest, t) && Parted(Finish(t), lo, i + 1, i + 1 + |rest|)
  {
    var u := Next(s, i, dash);
    assert s.buf == [];
    RunOne(s, i, dash);
    assert Range(lo, i + 1) == Range(lo, i) + [i];
    t := Run(u, i + 1, rest);
    if rest != [] {
      FillerRun(Next(u, i + 1, rest[0]), i + 2, rest[1..]);
      assert [i + 1] + Range(i + 2, i + 1 + |rest|) == Range(i + 1, i + 1 + |rest|);
    }
    MovesOn(s, i, [dash], u, rest, t);
  }

  lemma FilesThenDashes(s: Scan, lo: nat, files: seq<File<Marks>>, a: seq<Marks>, dash: Marks, rest: seq<Marks>,
                        i: nat, n: nat) returns (t: Scan)
    requires Settled(s, lo, lo) && Halves(files, []) && !EndsBare(files, []) && DashesOk(dash, rest)
    requires a == DiffText(files) && i == lo + |a| && n == i + 1 + |rest|
    ensures Moves(s, lo, a + ([dash] + rest), t) && Parted(Finish(t), lo, i + 1, n)
  {
    var u := FilesRun(s, lo, files, [], a, []);
    assert a + [] == a;
    t := DashesRun(u, lo, i, dash, rest);
    MovesOn(s, lo, a, u, [dash] + rest, t);
  }

  lemma TextThenDashes(text: seq<Marks>, files: seq<File<Marks>>, a: seq<Marks>, dash: Marks, rest: seq<Marks>,
                       j: nat, n: nat) returns (t: Scan)
    requires (forall k :: 0 <= k < |text| ==> Plain(text[k])) && Halves(files, []) && !EndsBare(files, [])
    requires DashesOk(dash, rest) && a == DiffText(files) && j == |text| + |a| + 1 && n == j + |rest|
    ensures Moves(START, 0, text + (a + ([dash] + rest)), t) && Parted(Finish(t), |text|, j, n)
  {
    StartsPlain(text);
    var s := Run(START, 0, text);
    t := FilesThenDashes(s, |text|, files, a, dash, rest, |text| + |a|, n);
    MovesOn(START, 0, text, s, a + ([dash] + rest), t);
  }

  /** A trailer that starts with a line of dashes and a space, and does not go on like the file lines of a diff. */
  predicate IsDashed(dash: string, rest: seq<string>) {
    && HasPrefix(dash, "--- ") && (rest != [] ==> !HasPrefix(rest[0], "+++ "))
    && forall k :: 1 <= k < |rest| ==> IsFiller(rest[k])
  }

  lemma DashesStay(dash: string, rest: seq<string>)
    requires IsDashed(dash, rest)
    ensures DashesOk(MarksOf(dash), AllMarks(rest))
  {
    OldFileMarks(dash);
    forall k | 1 <= k < |rest| ensures Filler(AllMarks(rest)[k]) {
      FillerMarks(rest[k]);
    }
  }

  lemma DashesText(text: seq<string>, a: seq<string>, dash: string, rest: seq<string>)
    ensures AllMarks(text + (a + ([dash] + rest))) ==
            AllMarks(text) + (AllMarks(a) + ([MarksOf(dash)] + AllMarks(rest)))
  {
    AllMarksOfOne(dash);
    AllMarksAppend([dash], rest);
    AllMarksAppend(a, [dash] + rest);
    AllMarksAppend(text, a + ([dash] + rest));
  }

  /** The last file has hunks, so that behind it nothing is held back. */
  ghost predicate EndsInHunks(files: seq<File<string>>) {
    IsDiff(files) && files[|files| - 1].Changed?
  }

  lemma EndsFlushed(files: seq<File<string>>)
    requires EndsInHunks(files)
    ensures Halves(MarkFiles(files), []) && !EndsBare(MarkFiles(files), [])
  {
    FilesStay(files);
    assert MarkFiles(files)[|files| - 1] == MarkFile(files[|files| - 1]);
  }

  lemma LinesOfDashes(text: seq<string>, files: seq<File<string>>, dash: string, rest: seq<string>)
    returns (a: seq<string>, j: nat, n: nat)
    requires IsPlain(text) && EndsInHunks(files) && IsDashed(dash, rest)
    ensures a == DiffText(files) && j == |text| + |a| + 1 && n == j + |rest|
    ensures Parted(Result(text + (a + ([dash] + rest))), |text|, j, n)
  {
    a := DiffText(files);
    j, n := |text| + |a| + 1, |text| + |a| + 1 + |rest|;
    EndsFlushed(files);
    DashesStay(dash, rest);
    DiffTextStays(files);
    DashesText(text, a, dash, rest);
    var t := TextThenDashes(AllMarks(text), MarkFiles(files), AllMarks(a), MarksOf(dash), AllMarks(rest), j, n);
    PartedByMarks(text + (a + ([dash] + rest)), AllMarks(text) + (AllMarks(a) + ([MarksOf(dash)] + AllMarks(rest))),
                  t, |text|, j, n);
  }

  lemma PickDashes(text: seq<string>, a: seq<string>, dash: string, rest: seq<string>, j: nat, n: nat)
    requires j == |text| + |a| + 1 && n == j + |rest| && Parted(Result(text + (a + ([dash] + rest))), |text|, j, n)
    ensures PatchLines(text + (a + ([dash] + rest))) == a + [dash]
    ensures CommentLines(text + (a + ([dash] + rest))) == text + rest
  {
    assert text + (a + [dash]) + rest == text + (a + ([dash] + rest));
    PickParts(text, a + [dash], rest, |text|, j, n);
  }

  /** Of a trailer that starts with such a line, that line goes to the patch, and only the rest to the comment. */
  lemma DashesAreTaken(text: seq<string>, files: seq<File<string>>, dash: string, rest: seq<string>)
    requires IsPlain(text) && EndsInHunks(files) && IsDashed(dash, rest)
    ensures var lines := text + (DiffText(files) + ([dash] + rest));
      PatchLines(lines) == DiffText(files) + [dash] && CommentLines(lines) == text + rest
  {
    var a, j, n := LinesOfDashes(text, files, dash, rest);
    PickDashes(text, a, dash, rest, j, n);
  }
}
