/**
 Printing a well-formed diff between plain text and a trailer, and parsing it with ParsePatch, gives
 back the diff and the text around it, but for files at the end of the diff that never leave the buffer.
 */
module DiffRoundTrip {
  import opened Wrappers
  import opened Lines
  import opened DiffScan
  import opened DiffGrammar
  import opened HunkHeaders

  // ---------------------------------------------------------------- well-formed diffs

  /** How many lines of the old file the line of a hunk stands for, told by its first character. */
  function InOld(line: string): nat {
    if HasPrefix(line, "+") || HasPrefix(line, "\\ No newline at end of file") then 0 else 1
  }

  function InNew(line: string): nat {
    if HasPrefix(line, "-") || HasPrefix(line, "\\ No newline at end of file") then 0 else 1
  }

  function OldLength(body: seq<string>): nat {
    if body == [] then 0 else InOld(body[0]) + OldLength(body[1..])
  }

  function NewLength(body: seq<string>): nat {
    if body == [] then 0 else InNew(body[0]) + NewLength(body[1..])
  }

  /** "@@ -a,b +c,d @@", b being the old count and d the new one. */
  ghost predicate IsHeader(header: string, oldCount: nat, newCount: nat) {
    exists a, b, c, d, rest :: header == Header(a, b, c, d, rest) && AreParts(a, b, c, d, oldCount, newCount)
  }

  predicate AreParts(a: string, b: string, c: string, d: string, oldCount: nat, newCount: nat) {
    IsStart(a) && IsCount(b, oldCount) && IsStart(c) && IsCount(d, newCount)
  }

  /** The header's counts are those of the body, no-newline markers not counted, and not both zero. */
  ghost predicate IsHunk(h: Hunk<string>) {
    IsHeader(h.header, OldLength(h.body), NewLength(h.body)) && OldLength(h.body) + NewLength(h.body) > 0
  }

  predicate IsLead(line: string) {
    HasPrefix(line, "diff ") || HasPrefix(line, "Index: ")
  }

  /** The extended headers of git. */
  predicate IsGitHeader(line: string) {
    || HasPrefix(line, "old mode ") || HasPrefix(line, "new mode ")
    || HasPrefix(line, "deleted file mode ") || HasPrefix(line, "new file mode ")
    || HasPrefix(line, "copy from ") || HasPrefix(line, "copy to ")
    || HasPrefix(line, "rename from ") || HasPrefix(line, "rename to ")
    || HasPrefix(line, "similarity index ") || HasPrefix(line, "dissimilarity index ") || HasPrefix(line, "index ")
  }

  /** A line that a diff header may hold between its lead and its extended headers. */
  predicate IsFiller(line: string) {
    !HasPrefix(line, "--- ") && !IsGitHeader(line)
  }

  predicate IsFileHeader(lead: seq<string>, extended: seq<string>) {
    && (lead == [] ==> extended == [])
    && (lead != [] ==> IsLead(lead[0]))
    && (forall i :: 1 <= i < |lead| ==> IsFiller(lead[i]))
    && (forall i :: 0 <= i < |extended| ==> IsGitHeader(extended[i]))
  }

  ghost predicate IsFile(f: File<string>) {
    && IsFileHeader(f.lead, f.extended)
    && (f.Bare? ==> f.extended != [])
    && (f.Changed? ==> HasPrefix(f.minus, "--- ") && HasPrefix(f.plus, "+++ "))
    && (f.Changed? ==> f.hunks != [] && forall i :: 0 <= i < |f.hunks| ==> IsHunk(f.hunks[i]))
  }

  ghost predicate IsDiff(files: seq<File<string>>) {
    files != [] && AreFiles(files)
  }

  ghost predicate AreFiles(files: seq<File<string>>) {
    forall k :: 0 <= k < |files| ==> IsFile(files[k])
  }

  /** Text before the diff: no line starts a diff. */
  predicate IsPlain(text: seq<string>) {
    forall i :: 0 <= i < |text| ==> !IsLead(text[i]) && !HasPrefix(text[i], "--- ")
  }

  /** Text behind the diff, of which the last file is bare or not: nothing the machine would read on with. */
  predicate IsTrailer(text: seq<string>, bare: bool) {
    && (forall i :: 0 <= i < |text| ==> IsFiller(text[i]))
    && (text != [] && bare ==> !HasPrefix(text[0], "GIT binary patch"))
    && (text != [] && !bare ==> ParseHunk(text[0]).None? && !HasPrefix(text[0], "\\ No newline at end of file"))
  }

  // ---------------------------------------------------------------- prefixes exclude each other

  lemma EachGitHeader(line: string)
    ensures forall i :: 0 <= i < 11 && HasPrefix(line, EXTENDED[i]) ==> IsGitHeader(line)
    ensures IsGitHeader(line) ==> exists i :: 0 <= i < 11 && HasPrefix(line, EXTENDED[i])
  {
    assert EXTENDED[0] == "old mode " && EXTENDED[1] == "new mode " && EXTENDED[2] == "deleted file mode ";
    assert EXTENDED[3] == "new file mode " && EXTENDED[4] == "copy from " && EXTENDED[5] == "copy to ";
    assert EXTENDED[6] == "rename from " && EXTENDED[7] == "rename to " && EXTENDED[8] == "similarity index ";
    assert EXTENDED[9] == "dissimilarity index " && EXTENDED[10] == "index ";
    forall i | 0 <= i < 11 && HasPrefix(line, EXTENDED[i]) ensures IsGitHeader(line) {
      assert i in {0, 1, 2, 3, 4, 5, 6, 7, 8, 9, 10};
    }
  }

  lemma GitHeaders(line: string)
    ensures IsGitHeader(line) <==> IsExtendedHeader(line)
  {
    assert |EXTENDED| == 11;
    EachGitHeader(line);
  }

  lemma NotExtended(line: string)
    requires IsLead(line)
    ensures !IsExtendedHeader(line)
  {
    assert line[0] == 'I' || (line[0] == 'd' && line[1] == 'i' && line[2] == 'f');
    forall i | 0 <= i < |EXTENDED| ensures !HasPrefix(line, EXTENDED[i]) {
      var header := EXTENDED[i];
      assert header[0] != 'I' && (header[0] == 'd' ==> header[1] != 'i' || header[2] != 'f');
    }
  }

  lemma LeadMarks(line: string)
    requires IsLead(line)
    ensures Lead(MarksOf(line))
  {
    NotExtended(line);
    assert line[0] == 'd' || line[0] == 'I';
  }

  lemma OldFileMarks(line: string)
    requires HasPrefix(line, "--- ")
    ensures OldFileLine(MarksOf(line))
  {
    assert line[0] == '-';
    forall i | 0 <= i < |EXTENDED| ensures !HasPrefix(line, EXTENDED[i]) {
      assert EXTENDED[i][0] != '-';
    }
  }

  lemma ExtendedMarks(line: string)
    requires IsGitHeader(line)
    ensures Extended(MarksOf(line))
  {
    GitHeaders(line);
    if HasPrefix(line, "--- ") {
      OldFileMarks(line);
    }
  }

  lemma FillerMarks(line: string)
    requires IsFiller(line)
    ensures Filler(MarksOf(line))
  {
    GitHeaders(line);
  }

  lemma MarkerMarks(line: string)
    ensures Marker(MarksOf(line))
  {
    if HasPrefix(line, "\\ No newline at end of file") {
      assert line[0] == '\\';
    }
  }

  lemma BodyMarks(body: seq<string>)
    ensures forall j :: 0 <= j < |body| ==> Marker(AllMarks(body)[j])
  {
    forall j | 0 <= j < |body| ensures Marker(AllMarks(body)[j]) {
      MarkerMarks(body[j]);
    }
  }

  // ---------------------------------------------------------------- what the machine sees of a diff

  function MarkHunk(h: Hunk<string>): Hunk<Marks> {
    Hunk(MarksOf(h.header), AllMarks(h.body))
  }

  function MarkHunks(hunks: seq<Hunk<string>>): (r: seq<Hunk<Marks>>)
    ensures |r| == |hunks|
    ensures forall k :: 0 <= k < |hunks| ==> r[k] == MarkHunk(hunks[k])
  {
    seq(|hunks|, k requires 0 <= k < |hunks| => MarkHunk(hunks[k]))
  }

  function MarkFile(f: File<string>): File<Marks> {
    match f
    case Changed(lead, extended, minus, plus, hunks) =>
      Changed(AllMarks(lead), AllMarks(extended), MarksOf(minus), MarksOf(plus), MarkHunks(hunks))
    case Bare(lead, extended) => Bare(AllMarks(lead), AllMarks(extended))
  }

  function MarkFiles(files: seq<File<string>>): (r: seq<File<Marks>>)
    ensures |r| == |files|
    ensures forall k :: 0 <= k < |files| ==> r[k] == MarkFile(files[k])
  {
    seq(|files|, k requires 0 <= k < |files| => MarkFile(files[k]))
  }

  lemma LineCounts(line: string)
    ensures OldLines(MarksOf(line)) == InOld(line) && NewLines(MarksOf(line)) == InNew(line)
  {
    assert HasPrefix(line, "-") ==> line[0] == '-';
    assert HasPrefix(line, "+") ==> line[0] == '+';
    assert HasPrefix(line, "\\ No newline at end of file") ==> line[0] == '\\';
  }

  lemma {:induction false} BodyCounts(body: seq<string>)
    ensures OldCount(AllMarks(body)) == OldLength(body) && NewCount(AllMarks(body)) == NewLength(body)
  {
    if body != [] {
      LineCounts(body[0]);
      BodyCounts(body[1..]);
      assert AllMarks(body)[1..] == AllMarks(body[1..]);
    }
  }

  lemma HeaderCounts(header: string, oldCount: nat, newCount: nat)
    requires IsHeader(header, oldCount, newCount)
    ensures ParseHunk(header) == Some((oldCount, newCount))
  {
    var a, b, c, d, rest :| header == Header(a, b, c, d, rest) && AreParts(a, b, c, d, oldCount, newCount);
    HeaderReads(a, b, c, d, rest, oldCount, newCount);
  }

  lemma HunkStays(h: Hunk<string>)
    requires IsHunk(h)
    ensures HunkOk(MarkHunk(h))
  {
    BodyMarks(h.body);
    BodyCounts(h.body);
    HeaderCounts(h.header, OldLength(h.body), NewLength(h.body));
  }

  lemma HeaderStays(lead: seq<string>, extended: seq<string>)
    requires IsFileHeader(lead, extended)
    ensures lead != [] ==> Lead(MarksOf(lead[0]))
    ensures forall i :: 0 <= i < |extended| ==> Extended(AllMarks(extended)[i])
    ensures forall i :: 1 <= i < |lead| ==> Filler(AllMarks(lead)[i])
  {
    if lead != [] {
      LeadMarks(lead[0]);
    }
    forall i | 1 <= i < |lead| ensures Filler(AllMarks(lead)[i]) {
      FillerMarks(lead[i]);
    }
    forall i | 0 <= i < |extended| ensures Extended(AllMarks(extended)[i]) {
      ExtendedMarks(extended[i]);
    }
  }

  lemma HunksStay(hunks: seq<Hunk<string>>)
    requires hunks != [] && forall i :: 0 <= i < |hunks| ==> IsHunk(hunks[i])
    ensures HunksOk(MarkHunks(hunks))
  {
    forall i | 0 <= i < |hunks| ensures HunkOk(MarkHunks(hunks)[i]) {
      HunkStays(hunks[i]);
    }
  }

  lemma FileStays(f: File<string>)
    requires IsFile(f)
    ensures FileOk(MarkFile(f))
  {
    HeaderStays(f.lead, f.extended);
    if f.Changed? {
      OldFileMarks(f.minus);
      HunksStay(f.hunks);
    }
  }

  lemma AllMarksAppend(a: seq<string>, b: seq<string>)
    ensures AllMarks(a + b) == AllMarks(a) + AllMarks(b)
  {
  }

  lemma AllMarksOfOne(line: string)
    ensures AllMarks([line]) == [MarksOf(line)]
  {
  }

  lemma {:induction false} HunksTextStays(hunks: seq<Hunk<string>>)
    ensures AllMarks(HunksText(hunks)) == HunksText(MarkHunks(hunks))
  {
    if hunks != [] {
      HunksTextStays(hunks[1..]);
      AllMarksOfOne(hunks[0].header);
      AllMarksAppend([hunks[0].header], hunks[0].body);
      AllMarksAppend([hunks[0].header] + hunks[0].body, HunksText(hunks[1..]));
      assert MarkHunks(hunks)[1..] == MarkHunks(hunks[1..]);
    }
  }

  lemma FileTextStays(f: File<string>)
    ensures AllMarks(FileText(f)) == FileText(MarkFile(f))
  {
    AllMarksAppend(f.lead, f.extended);
    if f.Changed? {
      AllMarksOfOne(f.minus);
      AllMarksOfOne(f.plus);
      AllMarksAppend([f.minus], [f.plus]);
      AllMarksAppend(f.lead + f.extended, [f.minus] + [f.plus]);
      AllMarksAppend((f.lead + f.extended) + ([f.minus] + [f.plus]), HunksText(f.hunks));
      HunksTextStays(f.hunks);
    }
  }

  lemma {:induction false} DiffTextStays(files: seq<File<string>>)
    ensures AllMarks(DiffText(files)) == DiffText(MarkFiles(files))
  {
    if files != [] {
      FileTextStays(files[0]);
      DiffTextStays(files[1..]);
      AllMarksAppend(FileText(files[0]), DiffText(files[1..]));
      assert MarkFiles(files)[1..] == MarkFiles(files[1..]);
    }
  }

  // ---------------------------------------------------------------- the round trip

  lemma FirstFileText(f: File<string>, files: seq<File<string>>)
    ensures DiffText([f] + files) == FileText(f) + DiffText(files)
  {
    assert ([f] + files)[1..] == files;
  }

  lemma FirstOfBoth<T>(a: seq<T>, b: seq<T>)
    requires a != []
    ensures a == [a[0]] + a[1..] && a + b == [a[0]] + (a[1..] + b)
  {
  }

  lemma AppendAfter(first: seq<string>, rest: seq<string>, more: seq<string>, both: seq<string>)
    requires both == rest + more
    ensures first + both == (first + rest) + more
  {
  }

  lemma {:induction false} DiffTextAppend(a: seq<File<string>>, b: seq<File<string>>)
    ensures DiffText(a + b) == DiffText(a) + DiffText(b)
  {
    if a == [] {
      assert a + b == b;
    } else {
      var f, rest := a[0], a[1..];
      DiffTextAppend(rest, b);
      FirstFileText(f, rest);
      FirstFileText(f, rest + b);
      FirstOfBoth(a, b);
      AppendAfter(FileText(f), DiffText(rest), DiffText(b), DiffText(rest + b));
    }
  }

  lemma AroundStays(text: seq<string>, trailer: seq<string>, bare: bool)
    requires IsPlain(text) && IsTrailer(trailer, bare)
    ensures (forall k :: 0 <= k < |text| ==> Plain(AllMarks(text)[k])) && Trailer(AllMarks(trailer), bare)
  {
    forall i | 0 <= i < |trailer| ensures Filler(AllMarks(trailer)[i]) {
      FillerMarks(trailer[i]);
    }
  }

  lemma FilesStay(files: seq<File<string>>)
    requires AreFiles(files)
    ensures FilesOk(MarkFiles(files))
  {
    forall k | 0 <= k < |files| ensures FileOk(MarkFiles(files)[k]) {
      FileStays(files[k]);
    }
  }

  lemma PartsStay(flushed: seq<File<string>>, held: seq<File<string>>)
    requires Parts(flushed, held)
    ensures Parts(MarkFiles(flushed), MarkFiles(held))
    ensures EndsBare(MarkFiles(flushed), MarkFiles(held)) == EndsBare(flushed, held)
  {
  }

  lemma FourStay(a: seq<string>, b: seq<string>, c: seq<string>, d: seq<string>)
    ensures AllMarks(a + (b + c + d)) == AllMarks(a) + (AllMarks(b) + AllMarks(c) + AllMarks(d))
  {
    AllMarksAppend(b, c);
    AllMarksAppend(b + c, d);
    AllMarksAppend(a, b + c + d);
  }

  /** What is said of the marks of lines is said of the lines. */
  lemma PartedByMarks(lines: seq<string>, marks: seq<Marks>, t: Scan, i: nat, j: nat, n: nat)
    requires AllMarks(lines) == marks && Moves(START, 0, marks, t) && i <= j <= n && Parted(Finish(t), i, j, n)
    ensures Parted(Result(lines), i, j, n)
  {
  }

  /** Which line goes where: the files up to the last that flushes to the patch, all others to the comment. */
  lemma LinesOfDiff(text: seq<string>, flushed: seq<File<string>>, held: seq<File<string>>,
                    a: seq<string>, b: seq<string>, trailer: seq<string>, i: nat, j: nat, n: nat)
    requires IsPlain(text) && AreFiles(flushed) && AreFiles(held) && Parts(flushed, held)
    requires a == DiffText(flushed) && b == DiffText(held) && IsTrailer(trailer, EndsBare(flushed, held))
    requires i == |text| && j == i + |a| && n == j + |b| + |trailer|
    ensures Parted(Result(text + (a + b + trailer)), i, j, n)
  {
    AroundStays(text, trailer, EndsBare(flushed, held));
    FilesStay(flushed);
    FilesStay(held);
    PartsStay(flushed, held);
    DiffTextStays(flushed);
    DiffTextStays(held);
    var marks := AllMarks(text) + (AllMarks(a) + AllMarks(b) + AllMarks(trailer));
    var t := RoundTripRun(AllMarks(text), MarkFiles(flushed), MarkFiles(held), AllMarks(a), AllMarks(b),
                          AllMarks(trailer), i, j, n);
    FourStay(text, a, b, trailer);
    PartedByMarks(text + (a + b + trailer), marks, t, i, j, n);
  }

  lemma PickParts(a: seq<string>, b: seq<string>, c: seq<string>, i: nat, j: nat, n: nat)
    requires i == |a| && j == i + |b| && n == j + |c| && Parted(Result(a + b + c), i, j, n)
    ensures PatchLines(a + b + c) == b && CommentLines(a + b + c) == a + c
  {
    var all := a + b + c;
    NoLineIsLost(all);
    assert Pick(all, Range(i, j)) == b;
    assert Pick(all, Range(0, i) + Range(j, n)) == a + c;
  }

  lemma ConcatThree(a: seq<string>, b: seq<string>, c: seq<string>)
    ensures Concat(a + b + c) == Concat(a) + Concat(b) + Concat(c)
  {
    ConcatAppend(a, b);
    ConcatAppend(a + b, c);
  }

  lemma PickFour(text: seq<string>, a: seq<string>, b: seq<string>, trailer: seq<string>, i: nat, j: nat, n: nat)
    requires i == |text| && j == i + |a| && n == j + |b| + |trailer|
    requires Parted(Result(text + (a + b + trailer)), i, j, n)
    ensures PatchLines(text + (a + b) + trailer) == a && CommentLines(text + (a + b) + trailer) == text + (b + trailer)
  {
    assert text + (a + b + trailer) == text + (a + b) + trailer == text + a + (b + trailer);
    PickParts(text, a, b + trailer, i, j, n);
  }

  lemma BothFiles(flushed: seq<File<string>>, held: seq<File<string>>)
    requires AreFiles(flushed + held)
    ensures AreFiles(flushed) && AreFiles(held)
  {
    forall k | 0 <= k < |flushed| ensures IsFile(flushed[k]) {
      assert IsFile((flushed + held)[k]);
    }
    forall k | 0 <= k < |held| ensures IsFile(held[k]) {
      assert IsFile((flushed + held)[|flushed| + k]);
    }
  }

  lemma PartsRoundTrip(text: seq<string>, flushed: seq<File<string>>, held: seq<File<string>>, trailer: seq<string>)
    requires IsPlain(text) && AreFiles(flushed) && AreFiles(held) && Parts(flushed, held)
    requires IsTrailer(trailer, EndsBare(flushed, held))
    ensures
      var lines := text + (DiffText(flushed) + DiffText(held)) + trailer;
      && PatchLines(lines) == DiffText(flushed)
      && CommentLines(lines) == text + (DiffText(held) + trailer)
  {
    var a, b := DiffText(flushed), DiffText(held);
    var i, j, n := |text|, |text| + |a|, |text| + |a| + |b| + |trailer|;
    LinesOfDiff(text, flushed, held, a, b, trailer, i, j, n);
    PickFour(text, a, b, trailer, i, j, n);
  }

  /**
   For any input that is text without a diff start, a well-formed diff and a trailer without a trigger
   line: the patch is the diff up to the last file that flushes, the comment is everything else.
   */
  lemma LinesRoundTrip(text: seq<string>, files: seq<File<string>>, trailer: seq<string>)
    requires IsPlain(text) && IsDiff(files) && IsTrailer(trailer, files[|files| - 1].Bare?)
    ensures
      var lines, k := text + DiffText(files) + trailer, Flushed(files);
      && PatchLines(lines) == DiffText(files[..k])
      && CommentLines(lines) == text + (DiffText(files[k..]) + trailer)
  {
    var flushed, held := FlushedParts(files);
    BothFiles(flushed, held);
    DiffTextAppend(flushed, held);
    PartsRoundTrip(text, flushed, held, trailer);
  }

  lemma HeldHasLines(flushed: seq<File<string>>, held: seq<File<string>>)
    requires AreFiles(held) && Parts(flushed, held)
    ensures DiffText(held) == [] <==> held == []
  {
    if held != [] {
      assert IsFile(held[0]) && held[0].extended != [];
      assert |FileText(held[0])| > 0;
    }
  }

  /** The whole diff is in the patch if and only if its last file has hunks or a second extended header. */
  lemma WholeDiffIsPatch(text: seq<string>, files: seq<File<string>>, trailer: seq<string>)
    requires IsPlain(text) && IsDiff(files) && IsTrailer(trailer, files[|files| - 1].Bare?)
    ensures PatchLines(text + DiffText(files) + trailer) == DiffText(files) <==> Flushes(files[|files| - 1])
  {
    LinesRoundTrip(text, files, trailer);
    var flushed, held := FlushedParts(files);
    BothFiles(flushed, held);
    HeldHasLines(flushed, held);
    DiffTextAppend(flushed, held);
    SameWithNothing(DiffText(flushed), DiffText(held));
  }

  lemma SameWithNothing(a: seq<string>, b: seq<string>)
    ensures a == a + b <==> b == []
  {
    assert |a + b| == |a| + |b|;
  }

  /**
   The same for the content of a mail: the patch is exactly the diff, the comment exactly the text and
   the trailer, but for files at the end with one extended header and no hunks, which the comment gets.
   */
  lemma RoundTripOfContent(content: string, text: seq<string>, files: seq<File<string>>, trailer: seq<string>)
    requires SplitLines(content) == text + DiffText(files) + trailer
    requires IsPlain(text) && IsDiff(files) && IsTrailer(trailer, files[|files| - 1].Bare?)
    ensures
      var lines, k := SplitLines(content), Flushed(files);
      && content == Concat(text) + Concat(DiffText(files)) + Concat(trailer)
      && Concat(PatchLines(lines)) == Concat(DiffText(files[..k]))
      && Concat(CommentLines(lines)) == Concat(text) + (Concat(DiffText(files[k..])) + Concat(trailer))
  {
    var rest := DiffText(files[Flushed(files)..]);
    SplitIsLossless(content);
    ConcatThree(text, DiffText(files), trailer);
    LinesRoundTrip(text, files, trailer);
    ConcatAppend(text, rest + trailer);
    ConcatAppend(rest, trailer);
  }

  /**
   Printing and parsing: any text without a diff start, any well-formed diff of any number of files and
   hunks and any trailer come back, if these are lines at all.
   */
  lemma RoundTrip(text: seq<string>, files: seq<File<string>>, trailer: seq<string>)
    requires IsPlain(text) && IsDiff(files) && IsTrailer(trailer, files[|files| - 1].Bare?)
    requires AreLines(text + DiffText(files) + trailer)
    ensures
      var lines := SplitLines(Concat(text) + Concat(DiffText(files)) + Concat(trailer));
      var k := Flushed(files);
      && Concat(PatchLines(lines)) == Concat(DiffText(files[..k]))
      && Concat(CommentLines(lines)) == Concat(text) + (Concat(DiffText(files[k..])) + Concat(trailer))
  {
    ConcatThree(text, DiffText(files), trailer);
    LinesOfText(text + DiffText(files) + trailer);
    RoundTripOfContent(Concat(text) + Concat(DiffText(files)) + Concat(trailer), text, files, trailer);
  }
}
