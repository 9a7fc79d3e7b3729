/**
 What ingest records over a whole run: one patch or cover per message id and project, with the columns of
 the first mail that brought it, and one event for each patch, cover and series that was created.
 */
module Records {
  import opened Wrappers
  import opened Tables
  import opened Ingest
  import opened SeriesInvariant
  import opened Completion
  import opened StepEffects

  // ---------------------------------------------------------------- one row per message

  predicate SameMessage(m: Mail, n: Mail) {
    m.project == n.project && m.msgid == n.msgid
  }

  predicate SameKind(s: Step, t: Step) {
    s.PatchStep? == t.PatchStep?
  }

  /** The i-th mail is the first of its message id, project and kind. */
  ghost predicate IsFirst(steps: seq<Step>, i: int) {
    && 0 <= i < |steps|
    && forall j :: 0 <= j < i ==> !SameKind(steps[j], steps[i]) || !SameMessage(steps[j].mail, steps[i].mail)
  }

  /** The columns of a patch are those of the mail; only its series is not told. */
  predicate HasColumns(row: Patch, m: Mail) {
    && row.project == m.project && row.msgid == m.msgid && row.submitter == m.author && row.date == m.date
    && row.name == m.subject && (row.slot.Some? <==> m.number > 0)
    && (row.slot.Some? ==> row.slot.value.number == m.number)
  }

  ghost predicate PatchOf(db: Tables, p: int, m: Mail) {
    p in db.patches && db.patches[p].project == m.project && db.patches[p].msgid == m.msgid
  }

  ghost predicate CoverOf(db: Tables, c: int, m: Mail) {
    c in db.covers && db.covers[c].project == m.project && db.covers[c].msgid == m.msgid
  }

  ghost predicate IsThere(db: Tables, s: Step) {
    if s.PatchStep? then exists p :: PatchOf(db, p, s.mail) else exists c :: CoverOf(db, c, s.mail)
  }

  /** Each mail is there, as a patch or as a cover. */
  ghost predicate AllThere(db: Tables, steps: seq<Step>) {
    forall i {:trigger IsThere(db, steps[i])} :: 0 <= i < |steps| ==> IsThere(db, steps[i])
  }

  predicate SamePatch(row: Patch, other: Patch) {
    row.project == other.project && row.msgid == other.msgid
  }

  predicate SameCover(row: Cover, other: Cover) {
    row.project == other.project && row.msgid == other.msgid
  }

  ghost predicate FromFirst(row: Patch, steps: seq<Step>) {
    exists i :: IsFirst(steps, i) && steps[i].PatchStep? && HasColumns(row, steps[i].mail)
  }

  ghost predicate CoverFromFirst(row: Cover, steps: seq<Step>) {
    exists i :: IsFirst(steps, i) && steps[i].CoverStep? && row == CoverRow(steps[i].mail)
  }

  /** Each patch is from the first mail of its message, and no two are of the same message. */
  ghost predicate PatchesFrom(db: Tables, steps: seq<Step>) {
    && (forall p :: p in db.patches ==> FromFirst(db.patches[p], steps))
    && (forall p, q :: p in db.patches && q in db.patches && p != q ==> !SamePatch(db.patches[p], db.patches[q]))
  }

  ghost predicate CoversFrom(db: Tables, steps: seq<Step>) {
    && (forall c :: c in db.covers ==> CoverFromFirst(db.covers[c], steps))
    && (forall c, d :: c in db.covers && d in db.covers && c != d ==> !SameCover(db.covers[c], db.covers[d]))
  }

  lemma FirstStays(steps: seq<Step>, s: Step)
    ensures forall i :: IsFirst(steps, i) ==> IsFirst(steps + [s], i) && (steps + [s])[i] == steps[i]
    ensures forall row :: FromFirst(row, steps) ==> FromFirst(row, steps + [s])
    ensures forall row :: CoverFromFirst(row, steps) ==> CoverFromFirst(row, steps + [s])
  {
    forall i | IsFirst(steps, i) ensures IsFirst(steps + [s], i) {}
    forall row | FromFirst(row, steps) ensures FromFirst(row, steps + [s]) {
      var i :| IsFirst(steps, i) && steps[i].PatchStep? && HasColumns(row, steps[i].mail);
      assert IsFirst(steps + [s], i);
    }
    forall row | CoverFromFirst(row, steps) ensures CoverFromFirst(row, steps + [s]) {
      var i :| IsFirst(steps, i) && steps[i].CoverStep? && row == CoverRow(steps[i].mail);
      assert IsFirst(steps + [s], i);
    }
  }

  /** A mail that is no duplicate is the first of its message: all earlier ones are there. */
  lemma NewIsFirst(db: Tables, steps: seq<Step>, s: Step)
    requires AllThere(db, steps) && !Duplicate(db, s)
    ensures IsFirst(steps + [s], |steps|)
  {
    forall j | 0 <= j < |steps| && steps[j].PatchStep? == s.PatchStep? ensures !SameMessage(steps[j].mail, s.mail) {
      assert IsThere(db, steps[j]);
      if steps[j].PatchStep? {
        var p :| PatchOf(db, p, steps[j].mail);
      } else {
        var c :| CoverOf(db, c, steps[j].mail);
      }
    }
  }

  lemma PatchComesFrom(db: Tables, steps: seq<Step>, s: Step, row: Patch)
    requires PatchesFrom(db, steps) && IsFirst(steps + [s], |steps|) && s.PatchStep? && HasColumns(row, s.mail)
    ensures FromFirst(row, steps + [s]) && forall p :: p in db.patches ==> FromFirst(db.patches[p], steps + [s])
  {
    FirstStays(steps, s);
    assert (steps + [s])[|steps|] == s;
  }

  lemma PatchArrives(db: Tables, db1: Tables, steps: seq<Step>, s: Step, row: Patch)
    requires AllThere(db, steps) && PatchesFrom(db, steps) && IdsFresh(db) && s.PatchStep? && !Duplicate(db, s)
    requires db1.patches == db.patches[db.nextPatch := row] && HasColumns(row, s.mail)
    ensures PatchesFrom(db1, steps + [s])
  {
    NewIsFirst(db, steps, s);
    PatchComesFrom(db, steps, s, row);
    NoneIsSame(db, s, row);
    OneMorePatch(db, db1, db.nextPatch, row, steps + [s]);
  }

  lemma NoneIsSame(db: Tables, s: Step, row: Patch)
    requires IdsFresh(db) && s.PatchStep? && !Duplicate(db, s) && HasColumns(row, s.mail)
    ensures db.nextPatch !in db.patches && forall p :: p in db.patches ==> !SamePatch(db.patches[p], row)
  {
  }

  lemma OneMorePatch(db: Tables, db1: Tables, pid: int, row: Patch, steps: seq<Step>)
    requires pid !in db.patches && db1.patches == db.patches[pid := row]
    requires FromFirst(row, steps) && forall p :: p in db.patches ==> FromFirst(db.patches[p], steps)
    requires forall p, q :: p in db.patches && q in db.patches && p != q ==> !SamePatch(db.patches[p], db.patches[q])
    requires forall p :: p in db.patches ==> !SamePatch(db.patches[p], row)
    ensures PatchesFrom(db1, steps)
  {
  }

  lemma CoverComesFrom(db: Tables, steps: seq<Step>, s: Step)
    requires CoversFrom(db, steps) && IsFirst(steps + [s], |steps|) && s.CoverStep?
    ensures CoverFromFirst(CoverRow(s.mail), steps + [s])
    ensures forall c :: c in db.covers ==> CoverFromFirst(db.covers[c], steps + [s])
  {
    FirstStays(steps, s);
    assert (steps + [s])[|steps|] == s;
  }

  lemma CoverArrives(db: Tables, db1: Tables, steps: seq<Step>, s: Step)
    requires AllThere(db, steps) && CoversFrom(db, steps) && IdsFresh(db) && s.CoverStep? && !Duplicate(db, s)
    requires db1.covers == db.covers[db.nextCover := CoverRow(s.mail)]
    ensures CoversFrom(db1, steps + [s])
  {
    NewIsFirst(db, steps, s);
    CoverComesFrom(db, steps, s);
    forall c | c in db.covers ensures c != db.nextCover && !SameCover(db.covers[c], CoverRow(s.mail)) {}
  }

  lemma PatchesStay(db: Tables, db1: Tables, steps: seq<Step>, s: Step)
    requires PatchesFrom(db, steps) && db1.patches == db.patches
    ensures PatchesFrom(db1, steps + [s])
  {
    FirstStays(steps, s);
  }

  lemma CoversStay(db: Tables, db1: Tables, steps: seq<Step>, s: Step)
    requires CoversFrom(db, steps) && db1.covers == db.covers
    ensures CoversFrom(db1, steps + [s])
  {
    FirstStays(steps, s);
  }

  /** Whatever is there stays. */
  lemma StaysThere(db: Tables, db1: Tables, s: Step)
    requires Grows(db, db1) && IsThere(db, s)
    ensures IsThere(db1, s)
  {
    if s.PatchStep? {
      var p :| PatchOf(db, p, s.mail);
      assert PatchOf(db1, p, s.mail);
    } else {
      var c :| CoverOf(db, c, s.mail);
      assert CoverOf(db1, c, s.mail);
    }
  }

  lemma OneMoreThere(db: Tables, steps: seq<Step>, s: Step)
    requires AllThere(db, steps) && IsThere(db, s)
    ensures AllThere(db, steps + [s])
  {
    var all := steps + [s];
    forall i | 0 <= i < |all| ensures IsThere(db, all[i]) {
      if i < |steps| {
        assert IsThere(db, steps[i]);
      }
    }
  }

  lemma AllStayThere(db: Tables, db1: Tables, steps: seq<Step>)
    requires AllThere(db, steps) && Grows(db, db1)
    ensures AllThere(db1, steps)
  {
    forall i | 0 <= i < |steps| ensures IsThere(db1, steps[i]) {
      assert IsThere(db, steps[i]);
      StaysThere(db, db1, steps[i]);
    }
  }

  lemma DuplicateIsThere(db: Tables, s: Step)
    requires Duplicate(db, s)
    ensures IsThere(db, s)
  {
    if s.PatchStep? {
      var p :| p in db.patches && db.patches[p].msgid == s.mail.msgid && db.patches[p].project == s.mail.project;
      assert PatchOf(db, p, s.mail);
    } else {
      var c :| c in db.covers && db.covers[c].msgid == s.mail.msgid && db.covers[c].project == s.mail.project;
      assert CoverOf(db, c, s.mail);
    }
  }

  lemma MailIsThere(db: Tables, s: Step)
    requires SlotsUnique(db) && StepOk(db, s) && !Duplicate(db, s)
    ensures IsThere(After(db, s), s)
  {
    if s.PatchStep? {
      PatchEffect(db, s);
      assert PatchOf(After(db, s), db.nextPatch, s.mail);
    } else {
      CoverEffect(db, s);
      assert CoverOf(After(db, s), db.nextCover, s.mail);
    }
  }

  /**
   Every mail is there as a patch or a cover, each patch and cover has the columns of the first mail of its
   message, and no message is there twice.
   */
  ghost predicate Recorded(db: Tables, steps: seq<Step>) {
    AllThere(db, steps) && PatchesFrom(db, steps) && CoversFrom(db, steps)
  }

  lemma NewRecords(db: Tables, steps: seq<Step>, s: Step)
    requires IdsFresh(db) && SlotsUnique(db) && Recorded(db, steps) && StepOk(db, s) && !Duplicate(db, s)
    ensures PatchesFrom(After(db, s), steps + [s]) && CoversFrom(After(db, s), steps + [s])
  {
    if s.PatchStep? {
      PatchEffect(db, s);
      CoversStay(db, After(db, s), steps, s);
      PatchArrives(db, After(db, s), steps, s, PatchRow(s.mail, Target(db, s.found)));
    } else {
      CoverEffect(db, s);
      PatchesStay(db, After(db, s), steps, s);
      CoverArrives(db, After(db, s), steps, s);
    }
  }

  lemma RepeatedRecords(db: Tables, steps: seq<Step>, s: Step)
    requires Recorded(db, steps) && IsThere(db, s)
    ensures Recorded(db, steps + [s])
  {
    OneMoreThere(db, steps, s);
    PatchesStay(db, db, steps, s);
    CoversStay(db, db, steps, s);
  }

  lemma NewIsThere(db: Tables, steps: seq<Step>, s: Step)
    requires Inv(db) && AllThere(db, steps) && StepOk(db, s) && !Duplicate(db, s)
    ensures AllThere(After(db, s), steps + [s])
  {
    StepKeepsInvariant(db, s);
    MailIsThere(db, s);
    AllStayThere(db, After(db, s), steps);
    OneMoreThere(After(db, s), steps, s);
  }

  lemma StepRecords(db: Tables, steps: seq<Step>, s: Step)
    requires Inv(db) && Recorded(db, steps) && StepOk(db, s)
    ensures Recorded(After(db, s), steps + [s])
  {
    if Duplicate(db, s) {
      DuplicateIsThere(db, s);
      RepeatedRecords(db, steps, s);
    } else {
      NewIsThere(db, steps, s);
      NewRecords(db, steps, s);
    }
  }

  lemma AllButLast<T>(s: seq<T>)
    requires s != []
    ensures s == s[..|s| - 1] + [s[|s| - 1]]
  {
  }

  /** The same after any run of mails from tables without patches and covers. */
  lemma {:induction false} RunRecordsFirstMails(db: Tables, steps: seq<Step>)
    requires Inv(db) && db.patches == map[] && db.covers == map[] && RunOk(db, steps)
    ensures Recorded(AfterRun(db, steps), steps)
    decreases |steps|
  {
    if steps != [] {
      var init, s := steps[..|steps| - 1], steps[|steps| - 1];
      RunRecordsFirstMails(db, init);
      RunKeepsInvariant(db, init);
      StepRecords(AfterRun(db, init), init, s);
      AllButLast(steps);
    }
  }

  // ---------------------------------------------------------------- one event for each row

  predicate IsCreation(e: Event) {
    e.PatchCreated? || e.CoverCreated? || e.SeriesCreated?
  }

  /** The events of what a stored mail creates: itself, and the series it opens. */
  function CreatedBy(db: Tables, s: Step): seq<Event> {
    [if s.PatchStep? then PatchCreated(db.nextPatch) else CoverCreated(db.nextCover)] +
    if s.found.None? then [SeriesCreated(db.nextSeries)] else []
  }

  ghost predicate NoCreation(events: seq<Event>) {
    forall i :: 0 <= i < |events| ==> !IsCreation(events[i])
  }

  lemma NotCounted(a: seq<Event>, b: seq<Event>, e: Event)
    requires NoCreation(b) && IsCreation(e)
    ensures multiset(a + b)[e] == multiset(a)[e]
  {
    assert e !in b;
  }

  lemma CompletionsCreateNothing(db: Tables, sid: int, n: int)
    requires sid in db.series && (n > 0 ==> n in Slots(db, sid))
    ensures NoCreation(PatchCompletedEvents(db, sid, n) + SeriesCompletedEvents(db, sid))
  {
  }

  lemma EventsOfCover(db: Tables, s: Step)
    requires s.CoverStep? && (s.found.Some? ==> s.found.value in db.series)
    ensures CoverResolved(db, s).events == db.events + CreatedBy(db, s)
  {
  }

  lemma UnlinkedEvents(db: Tables, s: Step) returns (more: seq<Event>)
    requires s.found.Some? ==> s.found.value in db.series
    ensures Unlinked(db, s).events == db.events + CreatedBy(db, s) + more && NoCreation(more)
  {
    var sid := Target(db, s.found);
    if s.PatchStep? {
      var db1, n := PatchAssigned(db, s), s.mail.number;
      SlotOfAssigned(db, s);
      EventsOfAssigned(db, s);
      CompletionsCreateNothing(db1, sid, n);
      more := PatchCompletedEvents(db1, sid, n) + SeriesCompletedEvents(db1, sid);
      assert db.events + CreatedBy(db, s) == db1.events;
    } else {
      more := [];
      EventsOfCover(db, s);
    }
  }

  lemma CreationsAfter(db: Tables, s: Step, e: Event)
    requires StepOk(db, s) && !Duplicate(db, s) && IsCreation(e)
    ensures multiset(After(db, s).events)[e] == multiset(db.events)[e] + multiset(CreatedBy(db, s))[e]
  {
    var more := UnlinkedEvents(db, s);
    LinkedRow(Unlinked(db, s), Target(db, s.found), s.previous);
    NotCounted(db.events + CreatedBy(db, s), more, e);
  }

  /** The row that the event tells of is there. */
  predicate HasRow(db: Tables, e: Event)
    requires IsCreation(e)
  {
    match e
    case PatchCreated(p) => p in db.patches
    case CoverCreated(c) => c in db.covers
    case SeriesCreated(x) => x in db.series
  }

  /** Each patch, cover and series has had its event once, and none has one that is not there. */
  ghost predicate EachCreatedOnce(db: Tables) {
    forall e :: IsCreation(e) ==> multiset(db.events)[e] == if HasRow(db, e) then 1 else 0
  }

  lemma PatchAddsRows(db: Tables, s: Step, e: Event)
    requires StepOk(db, s) && !Duplicate(db, s) && s.PatchStep? && IsCreation(e)
    ensures HasRow(After(db, s), e) <==> HasRow(db, e) || e in CreatedBy(db, s)
  {
    PatchEffect(db, s);
  }

  lemma CoverAddsRows(db: Tables, s: Step, e: Event)
    requires SlotsUnique(db) && StepOk(db, s) && !Duplicate(db, s) && s.CoverStep? && IsCreation(e)
    ensures HasRow(After(db, s), e) <==> HasRow(db, e) || e in CreatedBy(db, s)
  {
    CoverEffect(db, s);
  }

  /** A mail creates nothing that is there, and each thing once. */
  lemma CreatedIsNew(db: Tables, s: Step, e: Event)
    requires IdsFresh(db) && IsCreation(e)
    ensures multiset(CreatedBy(db, s))[e] == if e in CreatedBy(db, s) then 1 else 0
    ensures e in CreatedBy(db, s) ==> !HasRow(db, e)
  {
  }

  lemma StepCreates(db: Tables, s: Step, e: Event)
    requires IdsFresh(db) && SlotsUnique(db) && StepOk(db, s) && !Duplicate(db, s) && IsCreation(e)
    requires multiset(db.events)[e] == if HasRow(db, e) then 1 else 0
    ensures multiset(After(db, s).events)[e] == if HasRow(After(db, s), e) then 1 else 0
  {
    CreationsAfter(db, s, e);
    CreatedIsNew(db, s, e);
    if s.PatchStep? {
      PatchAddsRows(db, s, e);
    } else {
      CoverAddsRows(db, s, e);
    }
  }

  lemma StepCreatesOnce(db: Tables, s: Step)
    requires IdsFresh(db) && SlotsUnique(db) && EachCreatedOnce(db) && StepOk(db, s)
    ensures EachCreatedOnce(After(db, s))
  {
    if !Duplicate(db, s) {
      forall e | IsCreation(e) ensures multiset(After(db, s).events)[e] == if HasRow(After(db, s), e) then 1 else 0 {
        StepCreates(db, s, e);
      }
    }
  }

  /** After any run of mails, patch-created, cover-created and series-created have come once for each row. */
  lemma {:induction false} RunCreatesOnce(db: Tables, steps: seq<Step>)
    requires Inv(db) && EachCreatedOnce(db) && RunOk(db, steps)
    ensures EachCreatedOnce(AfterRun(db, steps))
    decreases |steps|
  {
    if steps != [] {
      var init := steps[..|steps| - 1];
      RunCreatesOnce(db, init);
      RunKeepsInvariant(db, init);
      StepCreatesOnce(AfterRun(db, init), steps[|steps| - 1]);
    }
  }
}
