/**
 When ParsePatch keeps the order of lines. Two branches of the machine write a line past lines that
 are held back; the order is lost exactly when those are then written to the same output.
 */
module DiffOrder {
  import opened Lines
  import opened DiffScan

  predicate InOrder(s: Scan) {
    Increasing(s.patch) && Increasing(s.comment)
  }

  /** The lines held back are in order, and nothing from i on has been read. */
  predicate Fresh(s: Scan, i: nat) {
    Increasing(s.buf) && Within(s.patch, i) && Within(s.comment, i) && Within(s.buf, i)
  }

  /** Some line already written comes after the first line held back. */
  predicate Overtakes(written: seq<nat>, held: seq<nat>) {
    written != [] && held != [] && written[|written| - 1] > held[0]
  }

  /** The move writes held-back lines behind a later line. */
  predicate Late(s: Scan, a: Action) {
    (a.FlushToPatch? && Overtakes(s.patch, s.buf)) || (a.FlushToComment? && Overtakes(s.comment, s.buf))
  }

  ghost predicate SomeLate(s: Scan, i: nat, lines: seq<Marks>)
    decreases |lines|
  {
    if lines == [] then Overtakes(s.comment, s.buf)
    else Late(s, Decide(s, lines[0]).0) || SomeLate(Next(s, i, lines[0]), i + 1, lines[1..])
  }

  lemma JoinedIncreases(a: seq<nat>, b: seq<nat>)
    requires Increasing(a) && Increasing(b) && (a != [] && b != [] ==> a[|a| - 1] < b[0])
    ensures Increasing(a + b)
  {
    forall i, j | 0 <= i < j < |a + b| ensures (a + b)[i] < (a + b)[j] {
      if i < |a| <= j {
        assert a[i] <= a[|a| - 1] < b[0] <= b[j - |a|];
      }
    }
  }

  lemma PartIncreases(a: seq<nat>, b: seq<nat>)
    requires Increasing(a + b)
    ensures Increasing(a) && !Overtakes(a, b)
  {
    forall i, j | 0 <= i < j < |a| ensures a[i] < a[j] {
      assert (a + b)[i] == a[i] && (a + b)[j] == a[j];
    }
    if a != [] && b != [] {
      assert (a + b)[|a| - 1] < (a + b)[|a|];
    }
  }

  lemma Joined(a: seq<nat>, b: seq<nat>)
    requires Increasing(b) && (forall x :: x in a ==> x !in b)
    ensures Increasing(a + b) <==> Increasing(a) && !Overtakes(a, b)
  {
    if Increasing(a + b) {
      PartIncreases(a, b);
    }
    if Increasing(a) && !Overtakes(a, b) {
      if a != [] && b != [] {
        assert a[|a| - 1] in a && b[0] in b;
      }
      JoinedIncreases(a, b);
    }
  }

  /** No line is both written and held back. */
  predicate Apart(s: Scan) {
    && (forall x :: x in s.patch ==> x !in s.buf)
    && (forall x :: x in s.comment ==> x !in s.buf)
  }

  lemma AppendNew(a: seq<nat>, i: nat)
    requires Within(a, i)
    ensures Increasing(a + [i]) <==> Increasing(a)
  {
    assert forall k :: 0 <= k < |a| ==> (a + [i])[k] == a[k];
  }

  lemma ApplyOrder(s: Scan, a: Action, i: nat)
    requires Fresh(s, i) && Apart(s)
    ensures InOrder(Apply(s, a, i)) <==> InOrder(s) && !Late(s, a)
    ensures Fresh(Apply(s, a, i), i + 1) && Apart(Apply(s, a, i))
  {
    AppendNew(s.patch, i);
    AppendNew(s.comment, i);
    AppendNew(s.buf, i);
    Joined(s.patch, s.buf);
    Joined(s.comment, s.buf);
    AppendNew(s.patch + s.buf, i);
    AppendNew(s.comment + s.buf, i);
  }

  lemma NextOrder(s: Scan, i: nat, m: Marks)
    requires Fresh(s, i) && Apart(s)
    ensures InOrder(Next(s, i, m)) <==> InOrder(s) && !Late(s, Decide(s, m).0)
    ensures Fresh(Next(s, i, m), i + 1) && Apart(Next(s, i, m))
  {
    ApplyOrder(Counted(s, m), Decide(s, m).0, i);
  }

  lemma {:induction false} RunOrder(s: Scan, i: nat, lines: seq<Marks>)
    requires Fresh(s, i) && Apart(s)
    ensures InOrder(Finish(Run(s, i, lines))) <==> InOrder(s) && !SomeLate(s, i, lines)
    decreases |lines|
  {
    if lines == [] {
      Joined(s.comment, s.buf);
    } else {
      NextOrder(s, i, lines[0]);
      RunOrder(Next(s, i, lines[0]), i + 1, lines[1..]);
    }
  }

  /** Both outputs are in input order exactly when no held-back line was written behind a later one. */
  lemma OrderIsKeptUnlessLate(lines: seq<string>)
    ensures InOrder(Result(lines)) <==> !SomeLate(START, 0, AllMarks(lines))
  {
    RunOrder(START, 0, AllMarks(lines));
  }

  // ---------------------------------------------------------------- the branches that overtake

  /** The branch for a no-newline marker behind a finished hunk, with lines held back. */
  predicate MarkerPasses(s: Scan, m: Marks) {
    s.state.FileNew? && m.hunk.None? && !m.oldFile && s.hunk > 0 && m.noNewline && s.buf != []
  }

  /** The branch for plain text, with lines held back (which only the end of a binary patch leaves). */
  predicate TextPasses(s: Scan, m: Marks) {
    s.state.Text? && !m.diffStart && !m.indexStart && !m.oldFile && s.buf != []
  }

  predicate Flushes(a: Action) {
    a.FlushToPatch? || a.FlushToComment?
  }

  /**
   The branches, followed through the machine: marker says that MarkerPasses was taken since the held
   lines were last written out, text that TextPasses was. The order is lost when the held lines then
   go to the patch in the one case, to the comment in the other.
   */
  ghost predicate Disorder(s: Scan, i: nat, lines: seq<Marks>, marker: bool, text: bool)
    decreases |lines|
  {
    if lines == [] then text
    else
      var a := Decide(s, lines[0]).0;
      || (a.FlushToPatch? && marker)
      || (a.FlushToComment? && text)
      || Disorder(Next(s, i, lines[0]), i + 1, lines[1..],
                  !Flushes(a) && (marker || MarkerPasses(s, lines[0])),
                  !Flushes(a) && (text || TextPasses(s, lines[0])))
  }

  /** The flags say whether a held line has been overtaken; inside a hunk no line is held back. */
  predicate Tracks(s: Scan, marker: bool, text: bool) {
    && (marker <==> Overtakes(s.patch, s.buf))
    && (text <==> Overtakes(s.comment, s.buf))
    && (s.state.HunkHeader? || s.state.HunkBody? ==> s.buf == [])
  }

  lemma OvertakesHeld(written: seq<nat>, held: seq<nat>, i: nat)
    requires Within(written, i)
    ensures Overtakes(written, held + [i]) <==> Overtakes(written, held)
  {
    if held != [] {
      assert (held + [i])[0] == held[0];
    }
  }

  lemma OvertakesWritten(written: seq<nat>, held: seq<nat>, i: nat)
    requires Within(held, i)
    ensures Overtakes(written + [i], held) <==> held != []
  {
  }

  /** What one move does to the outputs and to the held lines, as far as overtaking goes. */
  lemma ApplyOvertakes(s: Scan, a: Action, i: nat)
    requires Fresh(s, i)
    ensures var t := Apply(s, a, i);
      && (Overtakes(t.patch, t.buf) <==>
          !Flushes(a) && (Overtakes(s.patch, s.buf) || (a.ToPatch? && s.buf != [])))
      && (Overtakes(t.comment, t.buf) <==>
          !Flushes(a) && (Overtakes(s.comment, s.buf) || (a.ToComment? && s.buf != [])))
  {
    OvertakesHeld(s.patch, s.buf, i);
    OvertakesHeld(s.comment, s.buf, i);
    OvertakesWritten(s.patch, s.buf, i);
    OvertakesWritten(s.comment, s.buf, i);
  }

  /** The only moves that write past held lines are those two branches. */
  lemma OnlyTheseBranches(s: Scan, m: Marks)
    requires s.state.HunkHeader? || s.state.HunkBody? ==> s.buf == []
    ensures Decide(s, m).0.ToPatch? && s.buf != [] <==> MarkerPasses(s, m)
    ensures Decide(s, m).0.ToComment? && s.buf != [] <==> TextPasses(s, m)
  {
  }

  lemma HunkHoldsNothing(s: Scan, i: nat, m: Marks)
    requires s.state.HunkHeader? || s.state.HunkBody? ==> s.buf == []
    ensures var t := Next(s, i, m); t.state.HunkHeader? || t.state.HunkBody? ==> t.buf == []
  {
  }

  lemma NextOvertakes(s: Scan, i: nat, m: Marks)
    requires Fresh(s, i)
    ensures var a, t := Decide(s, m).0, Next(s, i, m);
      && (Overtakes(t.patch, t.buf) <==>
          !Flushes(a) && (Overtakes(s.patch, s.buf) || (a.ToPatch? && s.buf != [])))
      && (Overtakes(t.comment, t.buf) <==>
          !Flushes(a) && (Overtakes(s.comment, s.buf) || (a.ToComment? && s.buf != [])))
  {
    ApplyOvertakes(Counted(s, m), Decide(s, m).0, i);
  }

  lemma NextTracks(s: Scan, i: nat, m: Marks, marker: bool, text: bool)
    requires Fresh(s, i) && Tracks(s, marker, text)
    ensures var flushes := Flushes(Decide(s, m).0);
      Tracks(Next(s, i, m), !flushes && (marker || MarkerPasses(s, m)), !flushes && (text || TextPasses(s, m)))
  {
    OnlyTheseBranches(s, m);
    HunkHoldsNothing(s, i, m);
    NextOvertakes(s, i, m);
  }

  lemma {:induction false} LateIsDisorder(s: Scan, i: nat, lines: seq<Marks>, marker: bool, text: bool)
    requires Fresh(s, i) && Apart(s) && Tracks(s, marker, text)
    ensures SomeLate(s, i, lines) <==> Disorder(s, i, lines, marker, text)
    decreases |lines|
  {
    if lines != [] {
      var a := Decide(s, lines[0]).0;
      NextOrder(s, i, lines[0]);
      NextTracks(s, i, lines[0], marker, text);
      LateIsDisorder(Next(s, i, lines[0]), i + 1, lines[1..],
                     !Flushes(a) && (marker || MarkerPasses(s, lines[0])),
                     !Flushes(a) && (text || TextPasses(s, lines[0])));
    }
  }

  /**
   Both outputs are in input order if and only if no marker that passed held lines is followed by
   those lines going to the patch, and no text that passed held lines by those going to the comment.
   */
  lemma OrderIsKeptUnlessPassed(lines: seq<string>)
    ensures InOrder(Result(lines)) <==> !Disorder(START, 0, AllMarks(lines), false, false)
  {
    OrderIsKeptUnlessLate(lines);
    LateIsDisorder(START, 0, AllMarks(lines), false, false);
  }

  // ---------------------------------------------------------------- runs without them

  /** A no-newline marker written past lines that are held back, or a binary patch that ends in "diff". */
  predicate Skips(s: Scan, m: Marks) {
    MarkerPasses(s, m) || (s.state.BinaryPatch? && m.diffWord)
  }

  ghost predicate SomeSkip(s: Scan, i: nat, lines: seq<Marks>)
    decreases |lines|
  {
    lines != [] && (Skips(s, lines[0]) || SomeSkip(Next(s, i, lines[0]), i + 1, lines[1..]))
  }

  /** In plain text nothing is held back. */
  lemma {:induction false} NoSkipNoDisorder(s: Scan, i: nat, lines: seq<Marks>)
    requires !SomeSkip(s, i, lines) && (s.state.Text? ==> s.buf == [])
    ensures !Disorder(s, i, lines, false, false)
    decreases |lines|
  {
    if lines != [] {
      NoSkipNoDisorder(Next(s, i, lines[0]), i + 1, lines[1..]);
    }
  }

  /** A run that takes neither branch keeps both outputs in input order. */
  lemma OrderIsKept(lines: seq<string>)
    requires !SomeSkip(START, 0, AllMarks(lines))
    ensures InOrder(Result(lines))
  {
    NoSkipNoDisorder(START, 0, AllMarks(lines));
    OrderIsKeptUnlessPassed(lines);
  }
}
