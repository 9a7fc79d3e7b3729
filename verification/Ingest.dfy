/**
 What one mail does to the tables: pkg/mail/patch.go, cover.go, series.go and event.go as
 functions from tables to tables. The only freedom is in the two lookups; a step records which
 rows they returned.
 */
module Ingest {
  import opened Wrappers
  import opened FiniteSets
  import opened Similarity
  import opened Tables

  /** A parsed mail: the fields of parser that ingest reads. */
  datatype Mail = Mail(project: int, author: int, msgid: string, refs: seq<string>, subject: string,
                       number: int, total: int, version: int, date: int)

  /**
   One mail that reached handlePatch or handleCoverLetter, with the row FindSeries returned and
   the series linkPreviousSeries chose.
   */
  datatype Step =
    | PatchStep(mail: Mail, found: Option<int>, previous: Option<int>)
    | CoverStep(mail: Mail, found: Option<int>, previous: Option<int>)

  /**
   What ParseMail guarantees: numbers come from decimal digits, a zero date is replaced by the
   current time, and a mail is dispatched as a cover only if it is number 0 of a positive total.
   */
  predicate Dispatched(s: Step) {
    && s.mail.number >= 0 && s.mail.total >= 0 && s.mail.version >= 0 && s.mail.date != ZERO_TIME
    && (s.CoverStep? ==> s.mail.number == 0 && s.mail.total > 0)
  }

  function AllRefs(m: Mail): seq<string> {
    [m.msgid] + m.refs
  }

  function PatchQuery(m: Mail): SeriesQuery {
    SeriesQuery(m.project, m.author, m.refs, m.msgid, m.number, m.version, m.total, m.date)
  }

  function CoverQuery(m: Mail): SeriesQuery {
    SeriesQuery(m.project, m.author, [m.msgid], m.msgid, 0, m.version, m.total, m.date)
  }

  /** unique(msgid, project_id) on patch and on cover. */
  predicate Duplicate(db: Tables, s: Step) {
    if s.PatchStep? then
      exists p :: p in db.patches && db.patches[p].msgid == s.mail.msgid && db.patches[p].project == s.mail.project
    else
      exists c :: c in db.covers && db.covers[c].msgid == s.mail.msgid && db.covers[c].project == s.mail.project
  }

  // ---------------------------------------------------------------- single updates

  function WithPatch(db: Tables, m: Mail): Tables {
    db.(patches := db.patches[db.nextPatch := Patch(m.project, m.msgid, m.author, m.date, m.subject, None)],
        nextPatch := db.nextPatch + 1,
        events := db.events + [PatchCreated(db.nextPatch)])
  }

  function WithCover(db: Tables, m: Mail): Tables {
    db.(covers := db.covers[db.nextCover := Cover(m.project, m.msgid, m.author, m.date, m.subject)],
        nextCover := db.nextCover + 1,
        events := db.events + [CoverCreated(db.nextCover)])
  }

  function WithSeries(db: Tables, m: Mail): Tables {
    db.(series := db.series[db.nextSeries := Series(m.project, m.author, m.version, m.total, m.date, None, None, None)],
        nextSeries := db.nextSeries + 1,
        events := db.events + [SeriesCreated(db.nextSeries)])
  }

  function KeysOf(project: int, ids: seq<string>): set<MsgKey> {
    set id | id in ids :: MsgKey(project, id)
  }

  /** CreateSeriesReference for each id: on a conflict the stored row stays. */
  function WithRefs(db: Tables, project: int, sid: int, ids: seq<string>): Tables {
    db.(refs := (map k | k in KeysOf(project, ids) :: sid) + db.refs)
  }

  function Update(db: Tables, sid: int, s: Series): Tables {
    db.(series := db.series[sid := s])
  }

  function WithSlot(db: Tables, pid: int, sid: int, number: int): Tables
    requires pid in db.patches
  {
    db.(patches := db.patches[pid := db.patches[pid].(slot := Some(Slot(sid, number)))])
  }

  // ---------------------------------------------------------------- assignSeries

  function Target(db: Tables, found: Option<int>): int {
    if found.Some? then found.value else db.nextSeries
  }

  /** The series FindSeries returned, or a new one. */
  function Resolved(db: Tables, m: Mail, found: Option<int>): Tables {
    if found.Some? then db else WithSeries(db, m)
  }

  function NamedByFirst(db: Tables, pid: int, sid: int, number: int): Tables
    requires pid in db.patches && sid in db.series
  {
    if db.series[sid].name.None? && number == 1
    then Update(db, sid, db.series[sid].(name := Some(db.patches[pid].name)))
    else db
  }

  function AssignedPatch(db: Tables, m: Mail, pid: int, sid: int): Tables
    requires pid in db.patches && sid in db.series
  {
    if m.number <= 0 then db else NamedByFirst(WithSlot(db, pid, sid, m.number), pid, sid, m.number)
  }

  function AssignedSeries(db: Tables, m: Mail, pid: int, found: Option<int>): Tables
    requires pid in db.patches
    requires found.Some? ==> found.value in db.series
  {
    var sid := Target(db, found);
    AssignedPatch(WithRefs(Resolved(db, m, found), m.project, sid, AllRefs(m)), m, pid, sid)
  }

  // ---------------------------------------------------------------- completion events

  /** patch-completed for n and for every patch in the run of taken slots right behind it. */
  ghost function CompletedRun(db: Tables, sid: int, n: int): seq<Event>
    requires n in Slots(db, sid)
  {
    var last := RunEnd(Slots(db, sid), n);
    seq(last - n + 1, i requires 0 <= i < last - n + 1 => PatchCompleted(Occupant(db, sid, n + i), sid))
  }

  ghost function PatchCompletedEvents(db: Tables, sid: int, n: int): seq<Event>
    requires n > 0 ==> n in Slots(db, sid)
  {
    if n > 0 && |Predecessors(db, sid, n)| == n - 1 then CompletedRun(db, sid, n) else []
  }

  function SeriesCompletedEvents(db: Tables, sid: int): seq<Event>
    requires sid in db.series
  {
    if db.series[sid].total > 0 && |Members(db, sid)| >= db.series[sid].total then [SeriesCompleted(sid)] else []
  }

  ghost function WithCompletions(db: Tables, sid: int, n: int): Tables
    requires sid in db.series
    requires n > 0 ==> n in Slots(db, sid)
  {
    db.(events := db.events + PatchCompletedEvents(db, sid, n) + SeriesCompletedEvents(db, sid))
  }

  // ---------------------------------------------------------------- covers and links

  /** A cover names a series that has no name, or that still has the name of its first patch. */
  ghost function CoverNamed(db: Tables, sid: int, name: string): Tables
    requires sid in db.series
  {
    var s := db.series[sid];
    if s.name.None? || (1 in Slots(db, sid) && s.name.value == db.patches[Occupant(db, sid, 1)].name)
    then Update(db, sid, s.(name := Some(StripPrefixes(name))))
    else db
  }

  function Linked(db: Tables, sid: int, previous: Option<int>): Tables
    requires sid in db.series
  {
    if previous.Some? then Update(db, sid, db.series[sid].(previous := previous)) else db
  }

  // ---------------------------------------------------------------- one mail

  ghost function PatchAssigned(db: Tables, s: Step): Tables
    requires s.found.Some? ==> s.found.value in db.series
  {
    AssignedSeries(WithPatch(db, s.mail), s.mail, db.nextPatch, s.found)
  }

  lemma SlotOfAssigned(db: Tables, s: Step)
    requires s.found.Some? ==> s.found.value in db.series
    ensures Target(db, s.found) in PatchAssigned(db, s).series
    ensures s.mail.number > 0 ==> InSlot(PatchAssigned(db, s), db.nextPatch, Target(db, s.found), s.mail.number)
    ensures s.mail.number > 0 ==> s.mail.number in Slots(PatchAssigned(db, s), Target(db, s.found))
  {
    if s.mail.number > 0 {
      assert InSlot(PatchAssigned(db, s), db.nextPatch, Target(db, s.found), s.mail.number);
      SlotHasOccupant(PatchAssigned(db, s), Target(db, s.found), s.mail.number);
    }
  }

  ghost function PatchCompletedTables(db: Tables, s: Step): (r: Tables)
    requires s.found.Some? ==> s.found.value in db.series
    ensures Target(db, s.found) in r.series
  {
    SlotOfAssigned(db, s);
    WithCompletions(PatchAssigned(db, s), Target(db, s.found), s.mail.number)
  }

  ghost function CoverResolved(db: Tables, s: Step): (r: Tables)
    requires s.found.Some? ==> s.found.value in db.series
    ensures Target(db, s.found) in r.series
  {
    var db1 := WithCover(db, s.mail);
    var sid := Target(db, s.found);
    var db2 := if s.found.Some? then db1 else WithRefs(WithSeries(db1, s.mail), s.mail.project, sid, [s.mail.msgid]);
    Update(db2, sid, db2.series[sid].(cover := Some(db.nextCover)))
  }

  /** The name linkPreviousSeries compares: for a cover it is the one read before the renaming. */
  ghost function NameInMemory(db: Tables, s: Step): Option<string>
    requires s.found.Some? ==> s.found.value in db.series
  {
    if s.PatchStep? then PatchCompletedTables(db, s).series[Target(db, s.found)].name
    else CoverResolved(db, s).series[Target(db, s.found)].name
  }

  /** The tables after everything but the link. */
  ghost function Unlinked(db: Tables, s: Step): (r: Tables)
    requires s.found.Some? ==> s.found.value in db.series
    ensures Target(db, s.found) in r.series
  {
    if s.PatchStep? then PatchCompletedTables(db, s)
    else CoverNamed(CoverResolved(db, s), Target(db, s.found), s.mail.subject)
  }

  /** FindSeries, asked once the mail itself is stored, may return the row the step records. */
  ghost predicate Located(db: Tables, s: Step) {
    && (if s.PatchStep? then Found(WithPatch(db, s.mail), PatchQuery(s.mail), s.found)
        else Found(WithCover(db, s.mail), CoverQuery(s.mail), s.found))
    && (s.found.Some? ==> s.found.value in db.series)
  }

  /** The lookups of a step return what the queries allow. */
  ghost predicate Lookups(db: Tables, s: Step) {
    && Located(db, s)
    && (if s.mail.version > 1
        then PreviousFor(Unlinked(db, s), s.mail.project, s.mail.refs, Target(db, s.found), NameInMemory(db, s),
                         s.previous)
        else s.previous.None?)
  }

  ghost predicate StepOk(db: Tables, s: Step) {
    Dispatched(s) && (Duplicate(db, s) || Lookups(db, s))
  }

  /** A duplicate is rejected and its transaction rolled back. */
  ghost function After(db: Tables, s: Step): Tables
    requires StepOk(db, s)
  {
    if Duplicate(db, s) then db else Linked(Unlinked(db, s), Target(db, s.found), s.previous)
  }

  // ---------------------------------------------------------------- runs

  ghost predicate RunOk(db: Tables, steps: seq<Step>)
    decreases |steps|, 0
  {
    steps == [] ||
    (RunOk(db, steps[..|steps| - 1]) &&
     StepOk(AfterRun(db, steps[..|steps| - 1]), steps[|steps| - 1]))
  }

  ghost function AfterRun(db: Tables, steps: seq<Step>): Tables
    requires RunOk(db, steps)
    decreases |steps|, 1
  {
    if steps == [] then db
    else After(AfterRun(db, steps[..|steps| - 1]), steps[|steps| - 1])
  }

  lemma {:induction false} RunPrefix(db: Tables, steps: seq<Step>, i: nat)
    requires RunOk(db, steps) && i <= |steps|
    ensures RunOk(db, steps[..i])
    ensures i < |steps| ==> StepOk(AfterRun(db, steps[..i]), steps[i])
    ensures i < |steps| ==> RunOk(db, steps[..i + 1])
    ensures i < |steps| ==> AfterRun(db, steps[..i + 1]) == After(AfterRun(db, steps[..i]), steps[i])
    decreases |steps|
  {
    if i == |steps| {
      assert steps[..i] == steps;
    } else {
      var init := steps[..|steps| - 1];
      if i < |init| {
        RunPrefix(db, init, i);
        assert init[..i] == steps[..i] && init[..i + 1] == steps[..i + 1];
      } else {
        assert steps[..i + 1] == steps;
      }
    }
  }

  lemma {:induction false} OneMoreStep(db: Tables, steps: seq<Step>, s: Step)
    requires RunOk(db, steps) && StepOk(AfterRun(db, steps), s)
    ensures RunOk(db, steps + [s])
    ensures AfterRun(db, steps + [s]) == After(AfterRun(db, steps), s)
  {
    assert (steps + [s])[..|steps + [s]| - 1] == steps;
  }

  const EMPTY: Tables := Tables(map[], map[], map[], map[], [], 1, 1, 1)
}
