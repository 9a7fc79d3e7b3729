/**
 ParsePatch of pkg/mail/diff.go as a state machine over lines. Lines are held as their indices in
 the input, so that losing, duplicating or reordering one cannot go unnoticed.
 */
module DiffScan {
  import opened Wrappers
  import opened Lines

  // ---------------------------------------------------------------- line tests

  predicate HasPrefix(line: string, prefix: string) {
    prefix <= line
  }

  const EXTENDED: seq<string> := [
    "old mode ", "new mode ", "deleted file mode ", "new file mode ", "copy from ", "copy to ",
    "rename from ", "rename to ", "similarity index ", "dissimilarity index ", "index "]

  predicate IsExtendedHeader(line: string) {
    exists i :: 0 <= i < |EXTENDED| && HasPrefix(line, EXTENDED[i])
  }

  // ---------------------------------------------------------------- hunk headers

  /** The number of leading decimal digits. */
  function Digits(s: string): (k: nat)
    ensures k <= |s|
  {
    if s != "" && '0' <= s[0] <= '9' then 1 + Digits(s[1..]) else 0
  }

  /** What strconv.Atoi stores on overflow. */
  const MAX_INT: int := 0x7FFF_FFFF_FFFF_FFFF

  function Value(s: string): nat {
    if s == "" then 0
    else
      var d := s[|s| - 1] as int - '0' as int;
      Value(s[..|s| - 1]) * 10 + (if d < 0 then 0 else d)
  }

  function Atoi(s: string): int {
    if Value(s) > MAX_INT then MAX_INT else Value(s)
  }

  /** An optional ",count", 1 when absent, and what follows it. */
  function Count(s: string): (int, string) {
    if s != "" && s[0] == ',' && Digits(s[1..]) > 0 then
      var k := Digits(s[1..]);
      (Atoi(s[1..k + 1]), s[k + 1..])
    else (1, s)
  }

  /** One "start,count" range: its count and what follows it. */
  function HunkRange(s: string): Option<(int, string)> {
    if Digits(s) == 0 then None else Some(Count(s[Digits(s)..]))
  }

  /** "@@ -a,b +c,d @@": the counts b and d. */
  function ParseHunk(line: string): Option<(int, int)> {
    if !HasPrefix(line, "@@ -") then None
    else match HunkRange(line[4..])
      case None => None
      case Some((minus, rest)) =>
        if !HasPrefix(rest, " +") then None
        else match HunkRange(rest[2..])
          case None => None
          case Some((plus, rest2)) => if HasPrefix(rest2, " @@") then Some((minus, plus)) else None
  }

  /** What the machine can tell about a line. */
  datatype Marks = Marks(diffStart: bool, indexStart: bool, diffWord: bool, oldFile: bool, newFile: bool,
                         extended: bool, noNewline: bool, binary: bool, minus: bool, plus: bool,
                         hunk: Option<(int, int)>)

  function MarksOf(line: string): Marks {
    Marks(HasPrefix(line, "diff "), HasPrefix(line, "Index: "), HasPrefix(line, "diff"),
          HasPrefix(line, "--- "), HasPrefix(line, "+++ "), IsExtendedHeader(line),
          HasPrefix(line, "\\ No newline at end of file"), HasPrefix(line, "GIT binary patch"),
          HasPrefix(line, "-"), HasPrefix(line, "+"), ParseHunk(line))
  }

  function AllMarks(lines: seq<string>): (r: seq<Marks>)
    ensures |r| == |lines|
    ensures forall i :: 0 <= i < |r| ==> r[i] == MarksOf(lines[i])
  {
    seq(|lines|, i requires 0 <= i < |lines| => MarksOf(lines[i]))
  }

  // ---------------------------------------------------------------- the machine

  datatype State = Text | DiffHeader | FileOld | FileNew | HunkHeader | HunkBody | ExtHeader | BinaryPatch

  /**
   minus and plus are the lines of the old and the new file that the current hunk still expects, hunk
   counts finished hunks.
   */
  datatype Scan = Scan(state: State, minus: int, plus: int, hunk: nat,
                       patch: seq<nat>, comment: seq<nat>, buf: seq<nat>)

  const START: Scan := Scan(Text, 0, 0, 0, [], [], [])

  /** What happens to a line and to the lines held back. */
  datatype Action = ToComment | ToPatch | Hold | FlushToPatch | FlushToComment

  function Apply(s: Scan, a: Action, i: nat): Scan {
    match a
    case ToComment => s.(comment := s.comment + [i])
    case ToPatch => s.(patch := s.patch + [i])
    case Hold => s.(buf := s.buf + [i])
    case FlushToPatch => s.(patch := s.patch + s.buf + [i], buf := [])
    case FlushToComment => s.(comment := s.comment + s.buf + [i], buf := [])
  }

  function Decide(s: Scan, line: Marks): (Action, State) {
    match s.state
    case Text =>
      if line.diffStart || line.indexStart then (Hold, DiffHeader)
      else if line.oldFile then (Hold, FileOld)
      else (ToComment, Text)
    case DiffHeader =>
      (Hold, if line.oldFile then FileOld else if line.extended then ExtHeader else DiffHeader)
    case FileOld =>
      if line.newFile then (Hold, FileNew)
      else if s.hunk > 0 then (Hold, DiffHeader)
      else (FlushToComment, Text)
    case FileNew =>
      if line.hunk.Some? then (FlushToPatch, HunkHeader)
      else if line.oldFile then (FlushToPatch, FileOld)
      else if s.hunk > 0 && line.noNewline then (ToPatch, FileNew)
      else if s.hunk > 0 then (Hold, DiffHeader)
      else (FlushToComment, Text)
    case HunkHeader | HunkBody =>
      (ToPatch, if s.minus - OldLines(line) <= 0 && s.plus - NewLines(line) <= 0 then FileNew else HunkBody)
    case ExtHeader =>
      if line.extended then (FlushToPatch, ExtHeader)
      else if line.oldFile then (FlushToPatch, FileOld)
      else if line.binary then (FlushToPatch, BinaryPatch)
      else (Hold, DiffHeader)
    case BinaryPatch =>
      if line.diffWord then (Hold, Text) else (FlushToPatch, BinaryPatch)
  }

  /** How many lines of the old and of the new file a hunk line stands for. */
  function OldLines(line: Marks): int {
    if line.minus then 1 else if line.plus then 0 else if line.noNewline then 0 else 1
  }

  function NewLines(line: Marks): int {
    if line.minus then 0 else if line.plus then 1 else if line.noNewline then 0 else 1
  }

  function Counted(s: Scan, line: Marks): Scan {
    if s.state.FileNew? && line.hunk.Some? then
      s.(minus := line.hunk.value.0, plus := line.hunk.value.1)
    else if s.state.HunkHeader? || s.state.HunkBody? then
      s.(minus := s.minus - OldLines(line), plus := s.plus - NewLines(line),
         hunk := if s.minus - OldLines(line) <= 0 && s.plus - NewLines(line) <= 0 then s.hunk + 1 else s.hunk)
    else s
  }

  function Next(s: Scan, i: nat, line: Marks): Scan {
    var (action, state) := Decide(s, line);
    Apply(Counted(s, line), action, i).(state := state)
  }

  function Run(s: Scan, i: nat, lines: seq<Marks>): Scan
    decreases |lines|
  {
    if lines == [] then s else Run(Next(s, i, lines[0]), i + 1, lines[1..])
  }

  /** At the end of the input the lines still held back go to the comment. */
  function Finish(s: Scan): Scan {
    s.(comment := s.comment + s.buf, buf := [])
  }

  function Result(lines: seq<string>): Scan {
    Finish(Run(START, 0, AllMarks(lines)))
  }

  lemma SameFirst(s: Scan, i: nat, a: seq<Marks>, b: seq<Marks>) returns (n: Scan)
    requires a != []
    ensures Run(s, i, a) == Run(n, i + 1, a[1..]) && Run(s, i, a + b) == Run(n, i + 1, a[1..] + b)
  {
    n := Next(s, i, a[0]);
    assert (a + b)[0] == a[0] && (a + b)[1..] == a[1..] + b;
  }

  lemma {:induction false} RunAppend(s: Scan, i: nat, a: seq<Marks>, b: seq<Marks>)
    ensures Run(s, i, a + b) == Run(Run(s, i, a), i + |a|, b)
    decreases |a|
  {
    if a == [] {
      assert a + b == b;
    } else {
      var n := SameFirst(s, i, a, b);
      RunAppend(n, i + 1, a[1..], b);
    }
  }

  // ---------------------------------------------------------------- conservation

  /** In how many places the line is. */
  ghost function Places(s: Scan, k: nat): nat {
    multiset(s.patch)[k] + multiset(s.comment)[k] + multiset(s.buf)[k]
  }

  /** Whatever is decided, exactly the one line is added. */
  lemma ApplyAddsOne(s: Scan, a: Action, i: nat, k: nat)
    ensures Places(Apply(s, a, i), k) == Places(s, k) + if k == i then 1 else 0
  {
  }

  lemma NextAddsOne(s: Scan, i: nat, line: Marks, k: nat)
    ensures Places(Next(s, i, line), k) == Places(s, k) + if k == i then 1 else 0
  {
    ApplyAddsOne(Counted(s, line), Decide(s, line).0, i, k);
  }

  /** What every turn keeps, with the number of lines read, every run keeps. */
  lemma {:induction false} RunKeeps(kept: (Scan, nat) -> bool, s: Scan, i: nat, lines: seq<Marks>)
    requires forall t: Scan, n: nat, m: Marks :: kept(t, n) ==> kept(Next(t, n, m), n + 1)
    requires kept(s, i)
    ensures kept(Run(s, i, lines), i + |lines|)
    decreases |lines|
  {
    if lines != [] {
      RunKeeps(kept, Next(s, i, lines[0]), i + 1, lines[1..]);
    }
  }

  /** The scan holds each of the first n lines once, and no other. */
  ghost predicate HoldsEach(s: Scan, n: nat) {
    forall k: nat :: Places(s, k) == if k < n then 1 else 0
  }

  lemma NextHoldsEach(s: Scan, i: nat, line: Marks)
    requires HoldsEach(s, i)
    ensures HoldsEach(Next(s, i, line), i + 1)
  {
    forall k: nat ensures Places(Next(s, i, line), k) == if k < i + 1 then 1 else 0 {
      NextAddsOne(s, i, line, k);
    }
  }

  lemma RunHoldsEach(lines: seq<Marks>)
    ensures HoldsEach(Run(START, 0, lines), |lines|)
  {
    var kept := (s: Scan, n: nat) => HoldsEach(s, n);
    forall s: Scan, n: nat, m: Marks | kept(s, n) ensures kept(Next(s, n, m), n + 1) {
      NextHoldsEach(s, n, m);
    }
    RunKeeps(kept, START, 0, lines);
  }

  lemma {:induction false} RangeHasEach(n: nat, k: nat)
    ensures multiset(Range(0, n))[k] == if k < n then 1 else 0
  {
    if n > 0 {
      RangeHasEach(n - 1, k);
      assert Range(0, n) == Range(0, n - 1) + [n - 1];
    }
  }

  lemma PermutationWithin(a: seq<nat>, n: nat)
    requires multiset(a) == multiset(Range(0, n))
    ensures Within(a, n)
  {
    forall k | 0 <= k < |a| ensures a[k] < n {
      assert a[k] in multiset(a);
      assert a[k] in Range(0, n);
    }
  }

  /** At the end every line is in one of the two outputs. */
  lemma FinishHasEach(s: Scan, k: nat)
    ensures var r := Finish(s); multiset(r.patch + r.comment)[k] == Places(s, k)
  {
  }

  lemma WithinBoth(a: seq<nat>, b: seq<nat>, n: nat)
    requires Within(a + b, n)
    ensures Within(a, n) && Within(b, n)
  {
    assert forall k :: 0 <= k < |a| ==> a[k] == (a + b)[k];
    assert forall k :: 0 <= k < |b| ==> b[k] == (a + b)[|a| + k];
  }

  /** Every line of the input ends up exactly once, in the patch or in the comment. */
  lemma NoLineIsLost(lines: seq<string>)
    ensures var r := Result(lines);
      multiset(r.patch + r.comment) == multiset(Range(0, |lines|))
    ensures Within(Result(lines).patch, |lines|) && Within(Result(lines).comment, |lines|)
  {
    var s, r := Run(START, 0, AllMarks(lines)), Result(lines);
    var both, all := multiset(r.patch + r.comment), multiset(Range(0, |lines|));
    RunHoldsEach(AllMarks(lines));
    forall k: nat ensures both[k] == all[k] {
      FinishHasEach(s, k);
      RangeHasEach(|lines|, k);
    }
    PermutationWithin(r.patch + r.comment, |lines|);
    WithinBoth(r.patch, r.comment, |lines|);
  }

  // ---------------------------------------------------------------- the two outputs as text

  function PatchLines(lines: seq<string>): seq<string> {
    NoLineIsLost(lines);
    Pick(lines, Result(lines).patch)
  }

  function CommentLines(lines: seq<string>): seq<string> {
    NoLineIsLost(lines);
    Pick(lines, Result(lines).comment)
  }

  /** The lines of patch and comment together are the lines of the input, as a multiset. */
  lemma LinesAreConserved(content: string)
    ensures var lines := SplitLines(content);
      multiset(PatchLines(lines)) + multiset(CommentLines(lines)) == multiset(lines)
  {
    var lines := SplitLines(content);
    var r := Result(lines);
    NoLineIsLost(lines);
    TwoPicks(lines, r.patch, r.comment);
  }

  lemma TwoPicks(lines: seq<string>, a: seq<nat>, b: seq<nat>)
    requires Within(a, |lines|) && Within(b, |lines|)
    requires multiset(a + b) == multiset(Range(0, |lines|))
    ensures multiset(Pick(lines, a)) + multiset(Pick(lines, b)) == multiset(lines)
  {
    PickPermutes(lines, a + b, Range(0, |lines|));
    PickRange(lines, 0, |lines|);
    assert lines[0..|lines|] == lines;
    assert Pick(lines, a + b) == Pick(lines, a) + Pick(lines, b);
  }
}
