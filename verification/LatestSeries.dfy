/**
 A run in which a patch has two series to go to: two first patches by one author, minutes apart, and a
 second patch without references, which joins the later of the two series.
 */
module LatestSeries {
  import opened Wrappers
  import opened Tables
  import opened Ingest
  import opened SeriesInvariant
  import opened Completion
  import opened StepEffects
  import opened Lookups

  /** Mails of one author with the same markers, without references, at most 20 minutes apart. */
  predicate Alike(m: Mail, n: Mail) {
    && m.author == n.author && m.project == n.project && m.version == n.version == 1 && m.total == n.total > 0
    && m.refs == n.refs == [] && m.msgid != n.msgid && -1200 <= m.date - n.date <= 1200
    && m.date != 0 && n.date != 0
  }

  function Sent(m: Mail, found: Option<int>): Step {
    PatchStep(m, found, None)
  }

  /** The tables hold the first patches of a and b, each in a series of its own. */
  ghost predicate HoldsBoth(db: Tables, a: Mail, b: Mail) {
    && Inv(db) && db.series.Keys == {1, 2} && FreshRow(db.series[1], a) && FreshRow(db.series[2], b)
    && db.patches == map[1 := PatchRow(a, 1), 2 := PatchRow(b, 2)] && db.nextPatch == 3
  }

  ghost predicate HoldsFirst(db: Tables, a: Mail) {
    && Inv(db) && db.series.Keys == {1} && FreshRow(db.series[1], a) && db.nextSeries == 2 && db.nextPatch == 2
    && db.patches == map[1 := PatchRow(a, 1)]
  }

  lemma FirstOpens(a: Mail)
    requires a.number == 1 && a.total > 0 && a.version == 1 && a.date != 0 && a.refs == []
    ensures StepOk(EMPTY, Sent(a, None)) && !Duplicate(EMPTY, Sent(a, None))
  {
    FoundIsRanked(WithPatch(EMPTY, a), PatchQuery(a), None);
  }

  lemma FirstHolds(a: Mail)
    requires StepOk(EMPTY, Sent(a, None)) && !Duplicate(EMPTY, Sent(a, None)) && a.number == 1
    ensures HoldsFirst(After(EMPTY, Sent(a, None)), a)
  {
    EmptyTablesAreFine(1);
    StepKeepsInvariant(EMPTY, Sent(a, None));
    PatchEffect(EMPTY, Sent(a, None));
    CounterAfter(EMPTY, Sent(a, None));
  }

  lemma AssignedCounter(db: Tables, m: Mail, pid: int, sid: int)
    requires pid in db.patches && sid in db.series
    ensures AssignedPatch(db, m, pid, sid).nextPatch == db.nextPatch
  {
  }

  lemma LinkedCounter(db: Tables, sid: int, previous: Option<int>)
    requires sid in db.series
    ensures Linked(db, sid, previous).nextPatch == db.nextPatch
  {
  }

  lemma CounterAfter(db: Tables, s: Step)
    requires StepOk(db, s) && !Duplicate(db, s) && s.PatchStep?
    ensures After(db, s).nextPatch == db.nextPatch + 1
  {
    var db1, sid := WithPatch(db, s.mail), Target(db, s.found);
    var db2 := WithRefs(Resolved(db1, s.mail, s.found), s.mail.project, sid, AllRefs(s.mail));
    assert db2.nextPatch == db.nextPatch + 1 && db.nextPatch in db2.patches && sid in db2.series;
    AssignedCounter(db2, s.mail, db.nextPatch, sid);
    LinkedCounter(Unlinked(db, s), sid, s.previous);
  }

  /** Slot 1 of the first series is taken: the second first patch opens another series. */
  lemma SecondOpens(db: Tables, a: Mail, b: Mail)
    requires HoldsFirst(db, a) && Alike(a, b) && a.number == b.number == 1
    ensures StepOk(db, Sent(b, None)) && !Duplicate(db, Sent(b, None))
  {
    var db1, q := WithPatch(db, b), PatchQuery(b);
    assert db1.patches[1].slot == Some(Slot(1, 1));
    assert forall x :: !ByAuthor(db1, q, x);
    FoundIsRanked(db1, q, None);
  }

  lemma SecondHolds(db: Tables, a: Mail, b: Mail)
    requires HoldsFirst(db, a) && StepOk(db, Sent(b, None)) && !Duplicate(db, Sent(b, None)) && b.number == 1
    ensures HoldsBoth(After(db, Sent(b, None)), a, b)
  {
    StepKeepsInvariant(db, Sent(b, None));
    PatchEffect(db, Sent(b, None));
    CounterAfter(db, Sent(b, None));
  }

  /** Both series could take the third mail; the later one is found, and no other may be. */
  lemma LaterIsFound(db: Tables, a: Mail, b: Mail, c: Mail, found: Option<int>)
    requires HoldsBoth(db, a, b) && Alike(a, c) && Alike(b, c) && a.number == b.number == 1 && c.number == 2
    requires a.date < b.date
    ensures Found(WithPatch(db, c), PatchQuery(c), found) <==> found == Some(2)
  {
    var db1, q := WithPatch(db, c), PatchQuery(c);
    assert db1.patches.Keys == {1, 2, db.nextPatch} && db1.patches[db.nextPatch].slot.None?;
    assert ByAuthor(db1, q, 1) && ByAuthor(db1, q, 2);
    FoundIsRanked(db1, q, found);
  }

  lemma ThirdJoins(db: Tables, a: Mail, b: Mail, c: Mail)
    requires HoldsBoth(db, a, b) && Alike(a, c) && Alike(b, c) && a.number == b.number == 1 && c.number == 2
    requires a.date < b.date
    ensures forall found :: StepOk(db, Sent(c, found)) <==> found == Some(2)
    ensures !Duplicate(db, Sent(c, Some(2)))
    ensures InSlot(After(db, Sent(c, Some(2))), 3, 2, 2)
  {
    forall found ensures StepOk(db, Sent(c, found)) <==> found == Some(2) {
      LaterIsFound(db, a, b, c, found);
    }
    PatchEffect(db, Sent(c, Some(2)));
  }

  /**
   Two series of one author are open, minutes apart; the patch for either of them joins the later one,
   whatever the ids, subjects and dates, and no other run of these mails is possible.
   */
  lemma JoinsTheLater(a: Mail, b: Mail, c: Mail)
    requires Alike(a, b) && Alike(a, c) && Alike(b, c) && a.number == b.number == 1 && c.number == 2
    requires a.date < b.date
    ensures RunOk(EMPTY, [] + [Sent(a, None)] + [Sent(b, None)] + [Sent(c, Some(2))])
    ensures InSlot(AfterRun(EMPTY, [] + [Sent(a, None)] + [Sent(b, None)] + [Sent(c, Some(2))]), 3, 2, 2)
    ensures forall found :: RunOk(EMPTY, [] + [Sent(a, None)] + [Sent(b, None)] + [Sent(c, found)]) ==> found == Some(2)
  {
    FirstOpens(a);
    FirstHolds(a);
    OneMoreStep(EMPTY, [], Sent(a, None));
    var db1 := After(EMPTY, Sent(a, None));
    SecondOpens(db1, a, b);
    SecondHolds(db1, a, b);
    OneMoreStep(EMPTY, [] + [Sent(a, None)], Sent(b, None));
    var db2 := After(db1, Sent(b, None));
    ThirdJoins(db2, a, b, c);
    OneMoreStep(EMPTY, [] + [Sent(a, None)] + [Sent(b, None)], Sent(c, Some(2)));
    forall found | RunOk(EMPTY, [] + [Sent(a, None)] + [Sent(b, None)] + [Sent(c, found)]) ensures found == Some(2) {
      LastStepIsOk(EMPTY, [] + [Sent(a, None)] + [Sent(b, None)], Sent(c, found));
    }
  }

  lemma LastStepIsOk(db: Tables, steps: seq<Step>, s: Step)
    requires RunOk(db, steps + [s])
    ensures RunOk(db, steps) && StepOk(AfterRun(db, steps), s)
  {
    assert (steps + [s])[..|steps + [s]| - 1] == steps;
  }

  const EARLY: Mail := Mail(1, 1, "<a>", [], "[PATCH 1/2] one", 1, 2, 1, 600)
  const LATE: Mail := Mail(1, 1, "<b>", [], "[PATCH 1/2] another one", 1, 2, 1, 900)
  const SECOND: Mail := Mail(1, 1, "<c>", [], "[PATCH 2/2] two", 2, 2, 1, 960)

  /** Ten minutes past, quarter past and sixteen past: the last of the three joins the second. */
  lemma ThirdMailJoinsTheLater()
    ensures RunOk(EMPTY, [] + [Sent(EARLY, None)] + [Sent(LATE, None)] + [Sent(SECOND, Some(2))])
    ensures InSlot(AfterRun(EMPTY, [] + [Sent(EARLY, None)] + [Sent(LATE, None)] + [Sent(SECOND, Some(2))]), 3, 2, 2)
    ensures forall found ::
      RunOk(EMPTY, [] + [Sent(EARLY, None)] + [Sent(LATE, None)] + [Sent(SECOND, found)]) ==> found == Some(2)
  {
    assert EARLY.msgid != LATE.msgid && EARLY.msgid != SECOND.msgid && LATE.msgid != SECOND.msgid;
    JoinsTheLater(EARLY, LATE, SECOND);
  }
}
