/**
 The loop of ParsePatch (pkg/mail/diff.go) with its string buffers, tied to the state machine of
 DiffScan: what it returns are the lines the machine puts in the patch and in the comment.
 */
module ParsePatch {
  import opened Lines
  import opened DiffScan

  /** The text of the lines with the given indices. */
  function TextOf(lines: seq<string>, idx: seq<nat>): string
    requires Within(idx, |lines|)
  {
    Concat(Pick(lines, idx))
  }

  lemma TextAppend(lines: seq<string>, a: seq<nat>, b: seq<nat>)
    requires Within(a, |lines|) && Within(b, |lines|)
    ensures TextOf(lines, a + b) == TextOf(lines, a) + TextOf(lines, b)
  {
    assert Pick(lines, a + b) == Pick(lines, a) + Pick(lines, b);
    ConcatAppend(Pick(lines, a), Pick(lines, b));
  }

  lemma TextOfOne(lines: seq<string>, i: nat)
    requires i < |lines|
    ensures TextOf(lines, [i]) == lines[i]
  {
    assert Pick(lines, [i]) == [lines[i]];
    assert Concat([lines[i]]) == lines[i] + Concat([]);
  }

  /** patchBuf, commentBuf and buf. */
  datatype Buffers = Buffers(patch: string, comment: string, held: string)

  ghost predicate Mirrors(lines: seq<string>, s: Scan, b: Buffers) {
    && Within(s.patch, |lines|) && Within(s.comment, |lines|) && Within(s.buf, |lines|)
    && b.patch == TextOf(lines, s.patch)
    && b.comment == TextOf(lines, s.comment)
    && b.held == TextOf(lines, s.buf)
  }

  /** The same move on the string buffers. */
  function Write(b: Buffers, a: Action, line: string): Buffers {
    match a
    case ToComment => b.(comment := b.comment + line)
    case ToPatch => b.(patch := b.patch + line)
    case Hold => b.(held := b.held + line)
    case FlushToPatch => b.(patch := b.patch + b.held + line, held := "")
    case FlushToComment => b.(comment := b.comment + b.held + line, held := "")
  }

  lemma LineGrows(lines: seq<string>, idx: seq<nat>, i: nat)
    requires Within(idx, |lines|) && i < |lines|
    ensures Within(idx + [i], |lines|) && TextOf(lines, idx + [i]) == TextOf(lines, idx) + lines[i]
  {
    TextOfOne(lines, i);
    TextAppend(lines, idx, [i]);
  }

  lemma FlushGrows(lines: seq<string>, idx: seq<nat>, held: seq<nat>, i: nat)
    requires Within(idx, |lines|) && Within(held, |lines|) && i < |lines|
    ensures Within(idx + held + [i], |lines|)
    ensures TextOf(lines, idx + held + [i]) == TextOf(lines, idx) + TextOf(lines, held) + lines[i]
  {
    TextAppend(lines, idx, held);
    LineGrows(lines, idx + held, i);
  }

  lemma WriteMirrors(lines: seq<string>, s: Scan, b: Buffers, a: Action, i: nat)
    requires i < |lines| && Mirrors(lines, s, b)
    ensures Mirrors(lines, Apply(s, a, i), Write(b, a, lines[i]))
  {
    match a {
      case ToComment => LineGrows(lines, s.comment, i);
      case ToPatch => LineGrows(lines, s.patch, i);
      case Hold => LineGrows(lines, s.buf, i);
      case FlushToPatch => FlushGrows(lines, s.patch, s.buf, i);
      case FlushToComment => FlushGrows(lines, s.comment, s.buf, i);
    }
  }

  lemma NextMirrors(lines: seq<string>, s: Scan, b: Buffers, i: nat)
    requires i < |lines| && Mirrors(lines, s, b)
    ensures Mirrors(lines, Next(s, i, MarksOf(lines[i])), Write(b, Decide(s, MarksOf(lines[i])).0, lines[i]))
  {
    WriteMirrors(lines, Counted(s, MarksOf(lines[i])), b, Decide(s, MarksOf(lines[i])).0, i);
  }

  /**
   One turn of the loop, with m what is seen of the line: the state, the two line counters, the hunk
   counter and the buffers.
   */
  method Turn(state0: State, lc0: (int, int), hunk0: nat, b0: Buffers, line: string, m: Marks, ghost s: Scan)
    returns (state: State, lc: (int, int), hunk: nat, b: Buffers)
    requires s.state == state0 && (s.minus, s.plus) == lc0 && s.hunk == hunk0
    ensures var t := Counted(s, m); lc == (t.minus, t.plus) && hunk == t.hunk
    ensures (Decide(s, m).1, Write(b0, Decide(s, m).0, line)) == (state, b)
  {
    state, lc, hunk, b := state0, lc0, hunk0, b0;
    match state
    case Text =>
      if m.diffStart || m.indexStart {
        state := DiffHeader;
        b := b.(held := b.held + line);
      } else if m.oldFile {
        state := FileOld;
        b := b.(held := b.held + line);
      } else {
        b := b.(comment := b.comment + line);
      }
    case DiffHeader =>
      b := b.(held := b.held + line);
      if m.oldFile {
        state := FileOld;
      } else if m.extended {
        state := ExtHeader;
      }
    case FileOld =>
      if m.newFile {
        state := FileNew;
        b := b.(held := b.held + line);
      } else if hunk > 0 {
        state := DiffHeader;
        b := b.(held := b.held + line);
      } else {
        state := Text;
        b := b.(comment := b.comment + b.held + line, held := "");
      }
    case FileNew =>
      if m.hunk.Some? {
        lc := m.hunk.value;
        state := HunkHeader;
        b := b.(patch := b.patch + b.held + line, held := "");
      } else if m.oldFile {
        b := b.(patch := b.patch + b.held + line, held := "");
        state := FileOld;
      } else if hunk > 0 && m.noNewline {
        b := b.(patch := b.patch + line);
      } else if hunk > 0 {
        state := DiffHeader;
        b := b.(held := b.held + line);
      } else {
        state := Text;
        b := b.(comment := b.comment + b.held + line, held := "");
      }
    case HunkHeader | HunkBody =>
      if m.minus {
        lc := (lc.0 - 1, lc.1);
      } else if m.plus {
        lc := (lc.0, lc.1 - 1);
      } else if !m.noNewline {
        lc := (lc.0 - 1, lc.1 - 1);
      }
      b := b.(patch := b.patch + line);
      if lc.0 <= 0 && lc.1 <= 0 {
        state := FileNew;
        hunk := hunk + 1;
      } else {
        state := HunkBody;
      }
    case ExtHeader =>
      if m.extended {
        b := b.(patch := b.patch + b.held + line, held := "");
      } else if m.oldFile {
        b := b.(patch := b.patch + b.held + line, held := "");
        state := FileOld;
      } else if m.binary {
        b := b.(patch := b.patch + b.held + line, held := "");
        state := BinaryPatch;
      } else {
        b := b.(held := b.held + line);
        state := DiffHeader;
      }
    case BinaryPatch =>
      if m.diffWord {
        b := b.(held := b.held + line);
        state := Text;
      } else {
        b := b.(patch := b.patch + b.held + line, held := "");
      }
  }

  /** Half-way through: i lines are read, rest is what is left of the input. */
  ghost predicate Reading(lines: seq<string>, rest: string, s: Scan, i: nat, b: Buffers) {
    && i <= |lines| && lines[i..] == SplitLines(rest)
    && Run(s, i, AllMarks(lines[i..])) == Run(START, 0, AllMarks(lines))
    && Mirrors(lines, s, b)
  }

  lemma ReadingStarts(content: string)
    ensures Reading(SplitLines(content), content, START, 0, Buffers("", "", ""))
  {
    assert SplitLines(content)[0..] == SplitLines(content);
  }

  lemma ReadingGoesOn(lines: seq<string>, rest: string, s: Scan, i: nat, b: Buffers)
    requires Reading(lines, rest, s, i, b) && rest != ""
    ensures var line := rest[..LineEnd(rest)];
      var m := MarksOf(line);
      Reading(lines, rest[LineEnd(rest)..], Next(s, i, m), i + 1, Write(b, Decide(s, m).0, line))
  {
    var line := rest[..LineEnd(rest)];
    assert lines[i] == lines[i..][0] == line;
    assert lines[i + 1..] == lines[i..][1..];
    RunUnfolds(s, i, lines[i..]);
    NextMirrors(lines, s, b, i);
  }

  lemma ReadingEnds(lines: seq<string>, s: Scan, i: nat, b: Buffers)
    requires Reading(lines, "", s, i, b)
    ensures b.patch == Concat(PatchLines(lines)) && b.comment + b.held == Concat(CommentLines(lines))
  {
    NoLineIsLost(lines);
    TextAppend(lines, s.comment, s.buf);
  }

  /** The variables of the loop agree with the machine. */
  predicate Agrees(s: Scan, state: State, lc: (int, int), hunk: nat) {
    s.state == state && (s.minus, s.plus) == lc && s.hunk == hunk
  }

  lemma NextAgrees(s: Scan, i: nat, m: Marks, state: State, lc: (int, int), hunk: nat)
    requires state == Decide(s, m).1
    requires var t := Counted(s, m); lc == (t.minus, t.plus) && hunk == t.hunk
    ensures Agrees(Next(s, i, m), state, lc, hunk)
  {
  }

  /** Reads one line off the input and takes one turn with it. */
  method ReadLine(state0: State, lc0: (int, int), hunk0: nat, b0: Buffers, input: string,
                  ghost lines: seq<string>, ghost s0: Scan, ghost i0: nat)
    returns (state: State, lc: (int, int), hunk: nat, b: Buffers, rest: string, ghost s: Scan, ghost i: nat)
    requires input != "" && Reading(lines, input, s0, i0, b0) && Agrees(s0, state0, lc0, hunk0)
    ensures Reading(lines, rest, s, i, b) && Agrees(s, state, lc, hunk)
    ensures |rest| < |input|
  {
    var line := input[..LineEnd(input)];
    rest := input[LineEnd(input)..];
    ReadingGoesOn(lines, input, s0, i0, b0);
    state, lc, hunk, b := Turn(state0, lc0, hunk0, b0, line, MarksOf(line), s0);
    s, i := Next(s0, i0, MarksOf(line)), i0 + 1;
    NextAgrees(s0, i0, MarksOf(line), state, lc, hunk);
  }

  method ParsePatch(content: string) returns (patch: string, comment: string)
    ensures patch == Concat(PatchLines(SplitLines(content)))
    ensures comment == Concat(CommentLines(SplitLines(content)))
  {
    ghost var lines := SplitLines(content);
    var b := Buffers("", "", "");
    var state, lc, hunk := Text, (0, 0), 0;
    var rest := content;
    ghost var s, i := START, 0;
    ReadingStarts(content);
    while rest != ""
      invariant Reading(lines, rest, s, i, b) && Agrees(s, state, lc, hunk)
      decreases |rest|
    {
      state, lc, hunk, b, rest, s, i := ReadLine(state, lc, hunk, b, rest, lines, s, i);
    }
    ReadingEnds(lines, s, i, b);
    return b.patch, b.comment + b.held;
  }

  lemma RunUnfolds(s: Scan, i: nat, lines: seq<string>)
    requires lines != []
    ensures Run(s, i, AllMarks(lines)) == Run(Next(s, i, MarksOf(lines[0])), i + 1, AllMarks(lines[1..]))
  {
    assert AllMarks(lines)[1..] == AllMarks(lines[1..]);
  }
}
