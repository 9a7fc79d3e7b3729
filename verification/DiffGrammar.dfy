/**
 The shape of a diff, over lines or over what the machine sees of them, and what the machine does
 with one that is well formed.
 */
module DiffGrammar {
  import opened Wrappers
  import opened Lines
  import opened DiffScan

  /** A hunk: its header and the lines behind it, no-newline markers included. */
  datatype Hunk<L> = Hunk(header: L, body: seq<L>)

  /**
   One file: a lead ("diff --git ..." or "Index: ..." and lines behind it) and extended headers, and, if
   its text changes, the two file lines and the hunks. Such a file needs neither lead nor headers.
   */
  datatype File<L> = Changed(lead: seq<L>, extended: seq<L>, minus: L, plus: L, hunks: seq<Hunk<L>>)
                   | Bare(lead: seq<L>, extended: seq<L>)

  function HunksText<L>(hunks: seq<Hunk<L>>): seq<L> {
    if hunks == [] then [] else [hunks[0].header] + hunks[0].body + HunksText(hunks[1..])
  }

  function FileText<L>(f: File<L>): seq<L> {
    if f.Bare? then f.lead + f.extended
    else (f.lead + f.extended) + ([f.minus] + [f.plus]) + HunksText(f.hunks)
  }

  function DiffText<L>(files: seq<File<L>>): seq<L> {
    if files == [] then [] else FileText(files[0]) + DiffText(files[1..])
  }

  /** Behind this file nothing is held back: its second extended header, or its hunk, sees to that. */
  predicate Flushes<L>(f: File<L>) {
    f.Changed? || |f.extended| > 1
  }

  /** The number of files up to the last one that flushes. */
  function Flushed<L>(files: seq<File<L>>): (k: nat)
    ensures k <= |files| && (k > 0 ==> Flushes(files[k - 1]))
    ensures forall i :: k <= i < |files| ==> !Flushes(files[i])
  {
    if files == [] then 0
    else if Flushes(files[|files| - 1]) then |files|
    else Flushed(files[..|files| - 1])
  }

  /** A diff in two parts: up to a file that flushes, and from there on files that do not. */
  predicate Parts<L>(flushed: seq<File<L>>, held: seq<File<L>>) {
    && (flushed == [] ==> held != [])
    && (flushed != [] ==> Flushes(flushed[|flushed| - 1]))
    && (forall k :: 0 <= k < |held| ==> !Flushes(held[k]))
  }

  predicate EndsBare<L>(flushed: seq<File<L>>, held: seq<File<L>>)
    requires Parts(flushed, held)
  {
    held != [] || flushed[|flushed| - 1].Bare?
  }

  lemma FlushedParts<L>(files: seq<File<L>>) returns (flushed: seq<File<L>>, held: seq<File<L>>)
    requires files != []
    ensures flushed == files[..Flushed(files)] && held == files[Flushed(files)..] && files == flushed + held
    ensures Parts(flushed, held) && EndsBare(flushed, held) == files[|files| - 1].Bare?
    ensures held == [] <==> Flushes(files[|files| - 1])
  {
    flushed, held := files[..Flushed(files)], files[Flushed(files)..];
  }

  // ---------------------------------------------------------------- well-formed marks

  function OldCount(body: seq<Marks>): int {
    if body == [] then 0 else OldLines(body[0]) + OldCount(body[1..])
  }

  function NewCount(body: seq<Marks>): int {
    if body == [] then 0 else NewLines(body[0]) + NewCount(body[1..])
  }

  /** No line has two readings that matter: a no-newline marker is neither a hunk header nor a file line. */
  predicate Marker(m: Marks) {
    m.noNewline ==> !m.oldFile && m.hunk.None?
  }

  /** The header's counts are those of the body, and not both zero. */
  predicate HunkOk(h: Hunk<Marks>) {
    && h.header.hunk == Some((OldCount(h.body), NewCount(h.body)))
    && OldCount(h.body) + NewCount(h.body) > 0
    && (forall j :: 0 <= j < |h.body| ==> Marker(h.body[j]))
  }

  predicate Lead(m: Marks) {
    (m.diffStart || m.indexStart) && !m.oldFile && !m.extended && !m.noNewline && !m.binary && m.hunk.None?
  }

  /** A line that a diff header may hold between its lead and its extended headers. */
  predicate Filler(m: Marks) {
    !m.oldFile && !m.extended
  }

  predicate Extended(m: Marks) {
    m.extended && !m.oldFile
  }

  predicate OldFileLine(m: Marks) {
    m.oldFile && !m.diffStart && !m.indexStart && !m.extended && m.hunk.None?
  }

  predicate FileOk(f: File<Marks>) {
    && (f.lead == [] ==> f.extended == [])
    && (f.lead != [] ==> Lead(f.lead[0]))
    && (forall i :: 1 <= i < |f.lead| ==> Filler(f.lead[i]))
    && (forall i :: 0 <= i < |f.extended| ==> Extended(f.extended[i]))
    && (f.Bare? ==> f.extended != [])
    && (f.Changed? ==> OldFileLine(f.minus) && f.plus.newFile && HunksOk(f.hunks))
  }

  predicate HunksOk(hunks: seq<Hunk<Marks>>) {
    hunks != [] && forall i :: 0 <= i < |hunks| ==> HunkOk(hunks[i])
  }

  predicate FilesOk(files: seq<File<Marks>>) {
    forall k :: 0 <= k < |files| ==> FileOk(files[k])
  }

  /** Text before the diff: no line starts a diff. */
  predicate Plain(m: Marks) {
    !m.diffStart && !m.indexStart && !m.oldFile
  }

  /** Text behind the diff, of which the last file is bare or not: nothing the machine would read on with. */
  predicate Trailer(text: seq<Marks>, bare: bool) {
    && (forall i :: 0 <= i < |text| ==> Filler(text[i]))
    && (text != [] ==> if bare then !text[0].binary else text[0].hunk.None? && !text[0].noNewline)
  }

  // ---------------------------------------------------------------- inside the diff

  /** Everything from line lo on is in the patch or held back, in order; the comment is com. */
  predicate Held(s: Scan, com: seq<nat>, lo: nat, i: nat)
    requires lo <= i
  {
    s.patch + s.buf == Range(lo, i) && s.comment == com
  }

  /** Ready for a next file: at the start of the diff, behind a finished hunk, or behind extended headers. */
  predicate Between(s: Scan) {
    s.state.ExtHeader? || (s.buf == [] && ((s.state.Text? && s.hunk == 0) || (s.state.FileNew? && s.hunk > 0)))
  }

  lemma HeldNext(s: Scan, com: seq<nat>, lo: nat, i: nat, m: Marks)
    requires lo <= i && Held(s, com, lo, i)
    requires var a := Decide(s, m).0; a.Hold? || a.FlushToPatch? || (a.ToPatch? && s.buf == [])
    ensures Held(Next(s, i, m), com, lo, i + 1)
  {
    assert Range(lo, i + 1) == Range(lo, i) + [i];
  }

  /** In a diff header every line is held back. */
  lemma {:induction false} FillerRun(s: Scan, i: nat, lines: seq<Marks>)
    requires s.state.DiffHeader? && forall k :: 0 <= k < |lines| ==> Filler(lines[k])
    ensures Run(s, i, lines) == s.(buf := s.buf + Range(i, i + |lines|))
    decreases |lines|
  {
    if lines == [] {
      assert s.buf + Range(i, i) == s.buf;
    } else {
      FillerRun(Next(s, i, lines[0]), i + 1, lines[1..]);
      assert s.buf + [i] + Range(i + 1, i + |lines|) == s.buf + Range(i, i + |lines|);
    }
  }

  /** So are the lead of a file and the lines behind it. */
  lemma LeadRun(s: Scan, i: nat, lead: seq<Marks>)
    requires Between(s) && lead != [] && Lead(lead[0])
    requires forall k :: 1 <= k < |lead| ==> Filler(lead[k])
    ensures Run(s, i, lead) == s.(state := DiffHeader, buf := s.buf + Range(i, i + |lead|))
  {
    FillerRun(Next(s, i, lead[0]), i + 1, lead[1..]);
    assert s.buf + [i] + Range(i + 1, i + |lead|) == s.buf + Range(i, i + |lead|);
  }

  lemma HeldOn(s: Scan, com: seq<nat>, lo: nat, i: nat, j: nat)
    requires lo <= i <= j && Held(s, com, lo, i)
    ensures s.patch + (s.buf + Range(i, j)) == Range(lo, j)
  {
    assert s.patch + (s.buf + Range(i, j)) == Range(lo, i) + Range(i, j);
  }

  /** The second extended header, at the latest, flushes what is held back. */
  lemma {:induction false} ExtendedRun(s: Scan, com: seq<nat>, lo: nat, i: nat, lines: seq<Marks>)
    requires lo <= i && Held(s, com, lo, i) && (s.state.DiffHeader? || s.state.ExtHeader?)
    requires forall k :: 0 <= k < |lines| ==> Extended(lines[k])
    ensures var t := Run(s, i, lines);
      Held(t, com, lo, i + |lines|) && t.state == if lines == [] then s.state else ExtHeader
    ensures |lines| > (if s.state.ExtHeader? then 0 else 1) || (lines == [] && s.buf == []) ==>
              Run(s, i, lines).buf == []
    decreases |lines|
  {
    if lines != [] {
      HeldNext(s, com, lo, i, lines[0]);
      ExtendedRun(Next(s, i, lines[0]), com, lo, i + 1, lines[1..]);
    }
  }

  /** Before the file lines: at rest between files, or in the header of this file. */
  predicate BeforeFileLines(s: Scan) {
    Between(s) || s.state.DiffHeader? || s.state.ExtHeader?
  }

  lemma HeaderRun(s: Scan, com: seq<nat>, lo: nat, i: nat, f: File<Marks>)
    requires lo <= i && Held(s, com, lo, i) && Between(s) && FileOk(f)
    ensures var t := Run(s, i, f.lead + f.extended);
      Held(t, com, lo, i + |f.lead + f.extended|) && BeforeFileLines(t) &&
      (f.Bare? ==> t.state.ExtHeader? && (Flushes(f) ==> t.buf == []))
  {
    if f.lead == [] {
      assert f.lead + f.extended == [];
    } else {
      RunAppend(s, i, f.lead, f.extended);
      LeadRun(s, i, f.lead);
      HeldOn(s, com, lo, i, i + |f.lead|);
      ExtendedRun(Run(s, i, f.lead), com, lo, i + |f.lead|, f.extended);
    }
  }

  lemma RunOne(s: Scan, i: nat, m: Marks)
    ensures Run(s, i, [m]) == Next(s, i, m)
  {
    assert [m][1..] == [];
  }

  lemma OldFileRun(s: Scan, com: seq<nat>, lo: nat, i: nat, m: Marks)
    requires lo <= i && Held(s, com, lo, i) && BeforeFileLines(s) && OldFileLine(m)
    ensures Held(Next(s, i, m), com, lo, i + 1) && Next(s, i, m).state.FileOld?
  {
    HeldNext(s, com, lo, i, m);
  }

  lemma FileLinesRun(s: Scan, com: seq<nat>, lo: nat, i: nat, f: File<Marks>)
    requires lo <= i && Held(s, com, lo, i) && BeforeFileLines(s) && FileOk(f) && f.Changed?
    ensures var t := Run(s, i, [f.minus] + [f.plus]);
      Held(t, com, lo, i + 2) && t.state.FileNew?
  {
    RunAppend(s, i, [f.minus], [f.plus]);
    RunOne(s, i, f.minus);
    OldFileRun(s, com, lo, i, f.minus);
    var t := Next(s, i, f.minus);
    RunOne(t, i + 1, f.plus);
    HeldNext(t, com, lo, i + 1, f.plus);
  }

  // ---------------------------------------------------------------- hunks

  lemma {:induction false} CountsNatural(body: seq<Marks>)
    ensures OldCount(body) >= 0 && NewCount(body) >= 0
  {
    if body != [] {
      CountsNatural(body[1..]);
    }
  }

  /** Inside a hunk the counters are what the rest of the body still holds; at zero the hunk is over. */
  predicate InBody(s: Scan, rest: seq<Marks>) {
    && s.buf == []
    && if OldCount(rest) + NewCount(rest) > 0 then
         (s.state.HunkHeader? || s.state.HunkBody?) && s.minus == OldCount(rest) && s.plus == NewCount(rest)
       else s.state.FileNew? && s.hunk > 0
  }

  lemma BodyNext(s: Scan, com: seq<nat>, lo: nat, i: nat, body: seq<Marks>)
    requires lo <= i && Held(s, com, lo, i) && body != [] && InBody(s, body) && Marker(body[0])
    ensures Held(Next(s, i, body[0]), com, lo, i + 1)
    ensures InBody(Next(s, i, body[0]), body[1..])
  {
    var m := body[0];
    CountsNatural(body);
    CountsNatural(body[1..]);
    if OldCount(body) + NewCount(body) == 0 {
      assert OldLines(m) == 0 && NewLines(m) == 0;
      assert m.noNewline;
    }
    HeldNext(s, com, lo, i, m);
  }

  lemma {:induction false} BodyRun(s: Scan, com: seq<nat>, lo: nat, i: nat, body: seq<Marks>)
    requires lo <= i && Held(s, com, lo, i) && InBody(s, body)
    requires forall j :: 0 <= j < |body| ==> Marker(body[j])
    ensures var t := Run(s, i, body); Held(t, com, lo, i + |body|) && InBody(t, [])
    decreases |body|
  {
    if body != [] {
      BodyNext(s, com, lo, i, body);
      BodyRun(Next(s, i, body[0]), com, lo, i + 1, body[1..]);
    }
  }

  lemma HunkRun(s: Scan, com: seq<nat>, lo: nat, i: nat, h: Hunk<Marks>)
    requires lo <= i && Held(s, com, lo, i) && s.state.FileNew? && HunkOk(h)
    ensures var t := Run(s, i, [h.header] + h.body);
      Held(t, com, lo, i + 1 + |h.body|) && t.state.FileNew? && t.hunk > 0 && t.buf == []
  {
    var lines := [h.header] + h.body;
    assert lines[1..] == h.body;
    HeldNext(s, com, lo, i, h.header);
    CountsNatural(h.body);
    BodyRun(Next(s, i, h.header), com, lo, i + 1, h.body);
  }

  lemma {:induction false} HunksRun(s: Scan, com: seq<nat>, lo: nat, i: nat, hunks: seq<Hunk<Marks>>)
    requires lo <= i && Held(s, com, lo, i) && s.state.FileNew? && hunks != []
    requires forall k :: 0 <= k < |hunks| ==> HunkOk(hunks[k])
    ensures var t := Run(s, i, HunksText(hunks));
      Held(t, com, lo, i + |HunksText(hunks)|) && t.state.FileNew? && t.hunk > 0 && t.buf == []
    decreases |hunks|
  {
    var h := hunks[0];
    var first, rest := [h.header] + h.body, HunksText(hunks[1..]);
    HunkRun(s, com, lo, i, h);
    RunAppend(s, i, first, rest);
    var t := Run(s, i, first);
    if hunks[1..] == [] {
      assert rest == [];
    } else {
      HunksRun(t, com, lo, i + |first|, hunks[1..]);
    }
  }

  // ---------------------------------------------------------------- files

  lemma FileHeadRun(s: Scan, com: seq<nat>, lo: nat, i: nat, f: File<Marks>)
    requires lo <= i && Held(s, com, lo, i) && Between(s) && FileOk(f) && f.Changed?
    ensures var head := (f.lead + f.extended) + ([f.minus] + [f.plus]);
      Held(Run(s, i, head), com, lo, i + |head|) && Run(s, i, head).state.FileNew?
  {
    var head := f.lead + f.extended;
    RunAppend(s, i, head, [f.minus] + [f.plus]);
    HeaderRun(s, com, lo, i, f);
    FileLinesRun(Run(s, i, head), com, lo, i + |head|, f);
  }

  /** The state in which a file leaves the machine; nothing is held back if it flushes. */
  predicate Behind(s: Scan, f: File<Marks>) {
    && Between(s)
    && (if f.Bare? then s.state.ExtHeader? else s.state.FileNew?)
    && (Flushes(f) ==> s.buf == [])
  }

  lemma FileRun(s: Scan, com: seq<nat>, lo: nat, i: nat, f: File<Marks>)
    requires lo <= i && Held(s, com, lo, i) && Between(s) && FileOk(f)
    ensures var t := Run(s, i, FileText(f)); Held(t, com, lo, i + |FileText(f)|) && Behind(t, f)
  {
    if f.Bare? {
      HeaderRun(s, com, lo, i, f);
    } else {
      var head := (f.lead + f.extended) + ([f.minus] + [f.plus]);
      FileHeadRun(s, com, lo, i, f);
      RunAppend(s, i, head, HunksText(f.hunks));
      HunksRun(Run(s, i, head), com, lo, i + |head|, f.hunks);
    }
  }

  predicate Done(s: Scan, com: seq<nat>, lo: nat, i: nat, f: File<Marks>)
    requires lo <= i
  {
    Held(s, com, lo, i) && Behind(s, f)
  }

  /** The lines take the machine from s to t. */
  predicate Moves(s: Scan, i: nat, lines: seq<Marks>, t: Scan) {
    Run(s, i, lines) == t
  }

  lemma MovesOn(s: Scan, i: nat, a: seq<Marks>, t: Scan, b: seq<Marks>, u: Scan)
    requires Moves(s, i, a, t) && Moves(t, i + |a|, b, u)
    ensures Moves(s, i, a + b, u)
  {
    RunAppend(s, i, a, b);
  }

  lemma FirstFileRun(s: Scan, com: seq<nat>, lo: nat, i: nat, files: seq<File<Marks>>) returns (t: Scan)
    requires lo <= i && Held(s, com, lo, i) && Between(s) && files != [] && FilesOk(files)
    ensures Moves(s, i, FileText(files[0]), t) && Done(t, com, lo, i + |FileText(files[0])|, files[0])
  {
    FileRun(s, com, lo, i, files[0]);
    t := Run(s, i, FileText(files[0]));
  }

  /** Any number of files: all are in the patch or held back, and behind one that flushes all are in the patch. */
  lemma {:induction false} DiffRun(s: Scan, com: seq<nat>, lo: nat, i: nat, files: seq<File<Marks>>)
    returns (t: Scan)
    requires lo <= i && Held(s, com, lo, i) && Between(s) && files != [] && FilesOk(files)
    ensures Moves(s, i, DiffText(files), t)
    ensures Done(t, com, lo, i + |DiffText(files)|, files[|files| - 1])
    decreases |files|
  {
    var first, rest := FileText(files[0]), DiffText(files[1..]);
    t := FirstFileRun(s, com, lo, i, files);
    if files[1..] == [] {
      assert first + rest == first;
    } else {
      var u := DiffRun(t, com, lo, i + |first|, files[1..]);
      MovesOn(s, i, first, t, rest, u);
      t := u;
    }
  }

  // ---------------------------------------------------------------- files that are held back

  /** One extended header is held back like the lead before it. */
  lemma QuietRun(s: Scan, i: nat, f: File<Marks>)
    requires Between(s) && FileOk(f) && !Flushes(f)
    ensures Moves(s, i, FileText(f), s.(state := ExtHeader, buf := s.buf + Range(i, i + |FileText(f)|)))
  {
    var t, j := Run(s, i, f.lead), i + |f.lead|;
    RunAppend(s, i, f.lead, f.extended);
    LeadRun(s, i, f.lead);
    RunOne(t, j, f.extended[0]);
    assert f.extended == [f.extended[0]];
    assert s.buf + Range(i, j) + [j] == s.buf + Range(i, j + 1);
  }

  function Holding(s: Scan, i: nat, j: nat): Scan
    requires i <= j
  {
    s.(state := ExtHeader, buf := s.buf + Range(i, j))
  }

  lemma HoldingOn(s: Scan, i: nat, j: nat, k: nat)
    requires i <= j <= k
    ensures Holding(Holding(s, i, j), j, k) == Holding(s, i, k)
  {
    assert s.buf + Range(i, j) + Range(j, k) == s.buf + Range(i, k);
  }

  lemma {:induction false} QuietRuns(s: Scan, i: nat, files: seq<File<Marks>>)
    requires Between(s) && files != [] && FilesOk(files) && forall k :: 0 <= k < |files| ==> !Flushes(files[k])
    ensures Moves(s, i, DiffText(files), Holding(s, i, i + |DiffText(files)|))
    decreases |files|
  {
    var first, rest := FileText(files[0]), DiffText(files[1..]);
    QuietRun(s, i, files[0]);
    var t, j := Holding(s, i, i + |first|), i + |first|;
    if files[1..] == [] {
      assert first + rest == first;
    } else {
      QuietRuns(t, j, files[1..]);
      HoldingOn(s, i, j, j + |rest|);
      MovesOn(s, i, first, t, rest, Holding(s, i, j + |rest|));
    }
  }

  // ---------------------------------------------------------------- around the diff

  lemma {:induction false} PlainRun(s: Scan, i: nat, text: seq<Marks>)
    requires s == START.(comment := Range(0, i)) && (forall k :: 0 <= k < |text| ==> Plain(text[k]))
    ensures Run(s, i, text) == START.(comment := Range(0, i + |text|))
    decreases |text|
  {
    if text != [] {
      assert Range(0, i + 1) == Range(0, i) + [i];
      PlainRun(Next(s, i, text[0]), i + 1, text[1..]);
    }
  }

  /** The trailer is held back until the end of the input. */
  lemma TrailerRun(s: Scan, i: nat, text: seq<Marks>, bare: bool)
    requires (if bare then s.state.ExtHeader? else s.state.FileNew? && s.hunk > 0) && Trailer(text, bare)
    ensures var t := Run(s, i, text);
      t.buf == s.buf + Range(i, i + |text|) && t.patch == s.patch && t.comment == s.comment
  {
    if text != [] {
      FillerRun(Next(s, i, text[0]), i + 1, text[1..]);
      assert s.buf + [i] + Range(i + 1, i + |text|) == s.buf + Range(i, i + |text|);
    }
  }

  lemma StartsPlain(text: seq<Marks>)
    requires forall k :: 0 <= k < |text| ==> Plain(text[k])
    ensures Settled(Run(START, 0, text), |text|, |text|)
  {
    assert Range(0, 0) == [] && Range(|text|, |text|) == [];
    PlainRun(START, 0, text);
  }

  /** The lines from i to j are the patch, all others up to n are the comment. */
  predicate Parted(r: Scan, i: nat, j: nat, n: nat)
    requires i <= j <= n
  {
    r.patch == Range(i, j) && r.comment == Range(0, i) + Range(j, n)
  }

  predicate Halves(flushed: seq<File<Marks>>, held: seq<File<Marks>>) {
    FilesOk(flushed) && FilesOk(held) && Parts(flushed, held)
  }

  /** What the last file leaves, with the lines from j on held back. */
  predicate AtEnd(s: Scan, lo: nat, j: nat, i: nat, bare: bool)
    requires lo <= j <= i
  {
    && s.patch == Range(lo, j) && s.comment == Range(0, lo) && s.buf == Range(j, i)
    && if bare then s.state.ExtHeader? else s.state.FileNew? && s.hunk > 0
  }

  /** A machine that has parted with the lines from lo to j and is ready for more. */
  predicate Settled(s: Scan, lo: nat, j: nat)
    requires lo <= j
  {
    s.patch == Range(lo, j) && s.comment == Range(0, lo) && s.buf == [] && Between(s)
  }

  lemma PatchAlone(s: Scan, lo: nat, i: nat)
    requires lo <= i && Held(s, Range(0, lo), lo, i) && s.buf == []
    ensures s.patch == Range(lo, i)
  {
    assert s.patch + s.buf == s.patch;
  }

  lemma FlushedRun(s: Scan, lo: nat, flushed: seq<File<Marks>>) returns (t: Scan)
    requires Settled(s, lo, lo) && FilesOk(flushed)
    requires flushed != [] ==> Flushes(flushed[|flushed| - 1])
    ensures Moves(s, lo, DiffText(flushed), t) && Settled(t, lo, lo + |DiffText(flushed)|)
    ensures flushed != [] ==> Behind(t, flushed[|flushed| - 1])
  {
    if flushed == [] {
      t := s;
    } else {
      assert s.patch + s.buf == Range(lo, lo);
      t := DiffRun(s, Range(0, lo), lo, lo, flushed);
      PatchAlone(t, lo, lo + |DiffText(flushed)|);
    }
  }

  lemma HeldRun(s: Scan, lo: nat, j: nat, held: seq<File<Marks>>, bare: bool) returns (t: Scan)
    requires lo <= j && Settled(s, lo, j) && FilesOk(held) && (held == [] ==> AtEnd(s, lo, j, j, bare))
    requires forall k :: 0 <= k < |held| ==> !Flushes(held[k])
    ensures Moves(s, j, DiffText(held), t) && AtEnd(t, lo, j, j + |DiffText(held)|, held != [] || bare)
  {
    if held == [] {
      t := s;
    } else {
      QuietRuns(s, j, held);
      t := Holding(s, j, j + |DiffText(held)|);
      assert s.buf + Range(j, j + |DiffText(held)|) == Range(j, j + |DiffText(held)|);
    }
  }

  lemma FilesRun(s: Scan, lo: nat, flushed: seq<File<Marks>>, held: seq<File<Marks>>, a: seq<Marks>, b: seq<Marks>)
    returns (u: Scan)
    requires Settled(s, lo, lo) && Halves(flushed, held) && a == DiffText(flushed) && b == DiffText(held)
    ensures Moves(s, lo, a + b, u)
    ensures AtEnd(u, lo, lo + |a|, lo + |a| + |b|, EndsBare(flushed, held))
  {
    var t := FlushedRun(s, lo, flushed);
    u := HeldRun(t, lo, lo + |a|, held, flushed != [] && flushed[|flushed| - 1].Bare?);
    MovesOn(s, lo, a, t, b, u);
  }

  lemma EndRun(s: Scan, lo: nat, j: nat, i: nat, trailer: seq<Marks>, bare: bool) returns (t: Scan)
    requires lo <= j <= i && AtEnd(s, lo, j, i, bare) && Trailer(trailer, bare)
    ensures Moves(s, i, trailer, t) && Parted(Finish(t), lo, j, i + |trailer|)
  {
    TrailerRun(s, i, trailer, bare);
    t := Run(s, i, trailer);
    assert Range(j, i) + Range(i, i + |trailer|) == Range(j, i + |trailer|);
  }

  lemma BehindFiles(s: Scan, lo: nat, a: seq<Marks>, b: seq<Marks>, t: Scan, trailer: seq<Marks>, bare: bool)
    returns (u: Scan)
    requires Moves(s, lo, a + b, t) && AtEnd(t, lo, lo + |a|, lo + |a| + |b|, bare) && Trailer(trailer, bare)
    ensures Moves(s, lo, a + b + trailer, u) && Parted(Finish(u), lo, lo + |a|, lo + |a| + |b| + |trailer|)
  {
    u := EndRun(t, lo, lo + |a|, lo + |a| + |b|, trailer, bare);
    MovesOn(s, lo, a + b, t, trailer, u);
  }

  lemma BehindText(s: Scan, lo: nat, flushed: seq<File<Marks>>, held: seq<File<Marks>>,
                   a: seq<Marks>, b: seq<Marks>, trailer: seq<Marks>) returns (t: Scan)
    requires Settled(s, lo, lo) && Halves(flushed, held) && a == DiffText(flushed) && b == DiffText(held)
    requires Trailer(trailer, EndsBare(flushed, held))
    ensures Moves(s, lo, a + b + trailer, t) && Parted(Finish(t), lo, lo + |a|, lo + |a| + |b| + |trailer|)
  {
    var u := FilesRun(s, lo, flushed, held, a, b);
    t := BehindFiles(s, lo, a, b, u, trailer, EndsBare(flushed, held));
  }

  lemma PastText(start: Scan, text: seq<Marks>, s: Scan, flushed: seq<File<Marks>>, held: seq<File<Marks>>,
                 a: seq<Marks>, b: seq<Marks>, trailer: seq<Marks>) returns (t: Scan)
    requires Moves(start, 0, text, s) && Settled(s, |text|, |text|) && Halves(flushed, held)
    requires a == DiffText(flushed) && b == DiffText(held) && Trailer(trailer, EndsBare(flushed, held))
    ensures Moves(start, 0, text + (a + b + trailer), t)
    ensures Parted(Finish(t), |text|, |text| + |a|, |text| + |a| + |b| + |trailer|)
  {
    t := BehindText(s, |text|, flushed, held, a, b, trailer);
    MovesOn(start, 0, text, s, a + b + trailer, t);
  }

  /** Where the lines go: those up to the last file that flushes to the patch, all others to the comment. */
  lemma RoundTripRun(text: seq<Marks>, flushed: seq<File<Marks>>, held: seq<File<Marks>>,
                     a: seq<Marks>, b: seq<Marks>, trailer: seq<Marks>, i: nat, j: nat, n: nat) returns (t: Scan)
    requires (forall k :: 0 <= k < |text| ==> Plain(text[k])) && Halves(flushed, held)
    requires a == DiffText(flushed) && b == DiffText(held) && Trailer(trailer, EndsBare(flushed, held))
    requires i == |text| && j == i + |a| && n == j + |b| + |trailer|
    ensures Moves(START, 0, text + (a + b + trailer), t) && Parted(Finish(t), i, j, n)
  {
    StartsPlain(text);
    t := PastText(START, text, Run(START, 0, text), flushed, held, a, b, trailer);
  }
}
