/**
 What one mail changes, table by table: the row of its series, its references and its own row, and
 that it leaves everything else alone.
 */
module StepEffects {
  import opened Wrappers
  import opened Similarity
  import opened Tables
  import opened Ingest
  import opened SeriesInvariant

  /** A patch as it is stored; number 0 takes no slot. */
  function PatchRow(m: Mail, sid: int): Patch {
    Patch(m.project, m.msgid, m.author, m.date, m.subject, if m.number > 0 then Some(Slot(sid, m.number)) else None)
  }

  function CoverRow(m: Mail): Cover {
    Cover(m.project, m.msgid, m.author, m.date, m.subject)
  }

  /** The series row a mail starts from: the one it found, or a fresh one. */
  function BaseRow(db: Tables, s: Step): Series
    requires s.found.Some? ==> s.found.value in db.series
  {
    if s.found.Some? then db.series[s.found.value]
    else Series(s.mail.project, s.mail.author, s.mail.version, s.mail.total, s.mail.date, None, None, None)
  }

  /** Rows of other series, and what is left of the tables, stay. */
  ghost predicate OnlySeries(db: Tables, db': Tables, sid: int) {
    && db'.series.Keys == db.series.Keys + {sid}
    && (forall x :: x in db.series && x != sid ==> db'.series[x] == db.series[x])
  }

  // ---------------------------------------------------------------- a patch

  ghost predicate RowAfterPatch(db: Tables, db': Tables, s: Step)
    requires s.found.Some? ==> s.found.value in db.series
  {
    var sid, base := Target(db, s.found), BaseRow(db, s);
    && OnlySeries(db, db', sid)
    && db'.series[sid].(previous := base.previous) ==
         base.(name := if base.name.None? && s.mail.number == 1 then Some(s.mail.subject) else base.name)
  }

  ghost predicate TablesAfterPatch(db: Tables, db': Tables, s: Step) {
    var sid := Target(db, s.found);
    && db'.patches == db.patches[db.nextPatch := PatchRow(s.mail, sid)]
    && db'.covers == db.covers
    && db'.refs == (map k | k in KeysOf(s.mail.project, AllRefs(s.mail)) :: sid) + db.refs
    && db'.nextSeries == db.nextSeries + (if s.found.None? then 1 else 0)
  }

  lemma AssignedTables(db: Tables, s: Step)
    requires s.found.Some? ==> s.found.value in db.series
    requires s.PatchStep?
    ensures TablesAfterPatch(db, PatchAssigned(db, s), s)
  {
  }

  lemma AssignedRow(db: Tables, s: Step)
    requires s.found.Some? ==> s.found.value in db.series
    requires s.PatchStep?
    ensures RowAfterPatch(db, PatchAssigned(db, s), s)
  {
  }

  /** After everything else, the completion events and the link change no other column. */
  lemma LinkedRow(db: Tables, sid: int, previous: Option<int>)
    requires sid in db.series
    ensures OnlySeries(db, Linked(db, sid, previous), sid)
    ensures Linked(db, sid, previous).series[sid].(previous := db.series[sid].previous) == db.series[sid]
    ensures Linked(db, sid, previous) == db.(series := Linked(db, sid, previous).series)
  {
  }

  lemma PatchEffect(db: Tables, s: Step)
    requires StepOk(db, s) && !Duplicate(db, s) && s.PatchStep?
    ensures RowAfterPatch(db, After(db, s), s) && TablesAfterPatch(db, After(db, s), s)
  {
    SlotOfAssigned(db, s);
    AssignedTables(db, s);
    AssignedRow(db, s);
    LinkedRow(Unlinked(db, s), Target(db, s.found), s.previous);
  }

  // ---------------------------------------------------------------- a cover

  /** A name other than that of patch 1: one that a cover has given before. */
  ghost predicate HasOwnName(db: Tables, sid: int, name: Option<string>) {
    name.Some? && forall p :: InSlot(db, p, sid, 1) ==> db.patches[p].name != name.value
  }

  ghost predicate RowAfterCover(db: Tables, db': Tables, s: Step)
    requires s.found.Some? ==> s.found.value in db.series
  {
    var sid, base := Target(db, s.found), BaseRow(db, s);
    && OnlySeries(db, db', sid)
    && db'.series[sid].(previous := base.previous, name := base.name) == base.(cover := Some(db.nextCover))
    && (base.name.None? ==> db'.series[sid].name == Some(StripPrefixes(s.mail.subject)))
    && (forall p :: InSlot(db, p, sid, 1) && base.name == Some(db.patches[p].name) ==>
          db'.series[sid].name == Some(StripPrefixes(s.mail.subject)))
    && (HasOwnName(db, sid, base.name) ==> db'.series[sid].name == base.name)
  }

  ghost predicate TablesAfterCover(db: Tables, db': Tables, s: Step) {
    var sid := Target(db, s.found);
    && db'.patches == db.patches
    && db'.covers == db.covers[db.nextCover := CoverRow(s.mail)]
    && db'.refs == (if s.found.Some? then db.refs
                    else (map k | k in KeysOf(s.mail.project, [s.mail.msgid]) :: sid) + db.refs)
    && db'.nextSeries == db.nextSeries + (if s.found.None? then 1 else 0)
  }

  lemma CoverTables(db: Tables, s: Step)
    requires s.found.Some? ==> s.found.value in db.series
    requires s.CoverStep?
    ensures TablesAfterCover(db, CoverResolved(db, s), s) && TablesAfterCover(db, Unlinked(db, s), s)
  {
  }

  lemma CoverRowResolved(db: Tables, s: Step)
    requires s.found.Some? ==> s.found.value in db.series
    requires s.CoverStep?
    ensures OnlySeries(db, CoverResolved(db, s), Target(db, s.found))
    ensures CoverResolved(db, s).series[Target(db, s.found)] == BaseRow(db, s).(cover := Some(db.nextCover))
  {
  }

  lemma CoverRename(db: Tables, sid: int, subject: string)
    requires SlotsUnique(db) && sid in db.series
    ensures OnlySeries(db, CoverNamed(db, sid, subject), sid)
    ensures CoverNamed(db, sid, subject).series[sid].(name := db.series[sid].name) == db.series[sid]
    ensures db.series[sid].name.None? ==> CoverNamed(db, sid, subject).series[sid].name == Some(StripPrefixes(subject))
    ensures forall p :: InSlot(db, p, sid, 1) && db.series[sid].name == Some(db.patches[p].name) ==>
      CoverNamed(db, sid, subject).series[sid].name == Some(StripPrefixes(subject))
    ensures HasOwnName(db, sid, db.series[sid].name) ==>
      CoverNamed(db, sid, subject).series[sid].name == db.series[sid].name
  {
    forall p | InSlot(db, p, sid, 1) ensures 1 in Slots(db, sid) && Occupant(db, sid, 1) == p {
      SlotHasOccupant(db, sid, 1);
    }
  }

  lemma CoverEffect(db: Tables, s: Step)
    requires SlotsUnique(db) && StepOk(db, s) && !Duplicate(db, s) && s.CoverStep?
    ensures RowAfterCover(db, After(db, s), s) && TablesAfterCover(db, After(db, s), s)
  {
    var db1, sid := CoverResolved(db, s), Target(db, s.found);
    CoverTables(db, s);
    CoverRowResolved(db, s);
    CoverRename(db1, sid, s.mail.subject);
    LinkedRow(Unlinked(db, s), sid, s.previous);
    assert forall p :: InSlot(db, p, sid, 1) ==> InSlot(db1, p, sid, 1);
  }

  // ---------------------------------------------------------------- any mail

  /** The ids under which a mail looks for its series and that it leaves as references. */
  function IdsOf(s: Step): seq<string> {
    if s.CoverStep? then [s.mail.msgid] else AllRefs(s.mail)
  }

  predicate FreshRow(row: Series, m: Mail) {
    row.project == m.project && row.submitter == m.author && row.version == m.version && row.total == m.total &&
    row.date == m.date
  }

  /** The row that the mail of a step leaves in the table of patches, if any. */
  ghost predicate RowOf(s: Step, row: Patch, sid: int) {
    s.PatchStep? && row == PatchRow(s.mail, sid)
  }

  ghost predicate SeriesGoes(db: Tables, db': Tables, s: Step, sid: int) {
    && OnlySeries(db, db', sid)
    && (if sid in db.series then SameIdentity(db.series[sid], db'.series[sid]) else FreshRow(db'.series[sid], s.mail))
  }

  ghost predicate RefsGo(db: Tables, db': Tables, s: Step, sid: int) {
    && (forall k :: k in db.refs ==> k in db'.refs && db'.refs[k] == db.refs[k])
    && (forall k :: k in db'.refs && k !in db.refs ==> db'.refs[k] == sid && k in KeysOf(s.mail.project, IdsOf(s)))
  }

  ghost predicate RowsGo(db: Tables, db': Tables, s: Step, sid: int) {
    && (forall p :: p in db.patches ==> p in db'.patches && db'.patches[p] == db.patches[p])
    && (forall p :: p in db'.patches && p !in db.patches ==> RowOf(s, db'.patches[p], sid))
    && (forall c :: c in db.covers ==> c in db'.covers && db'.covers[c] == db.covers[c])
    && (forall c :: c in db'.covers && c !in db.covers ==> s.CoverStep? && db'.covers[c] == CoverRow(s.mail))
  }

  /** All that a stored mail does, it does to its own series. */
  ghost predicate Goes(db: Tables, db': Tables, s: Step, sid: int) {
    SeriesGoes(db, db', s, sid) && RefsGo(db, db', s, sid) && RowsGo(db, db', s, sid)
  }

  lemma AssignedSeriesGoes(db: Tables, s: Step)
    requires IdsFresh(db) && s.PatchStep? && (s.found.Some? ==> s.found.value in db.series)
    ensures SeriesGoes(db, PatchAssigned(db, s), s, Target(db, s.found))
  {
  }

  lemma AssignedRefsGo(db: Tables, s: Step)
    requires s.PatchStep? && (s.found.Some? ==> s.found.value in db.series)
    ensures RefsGo(db, PatchAssigned(db, s), s, Target(db, s.found))
  {
  }

  lemma AssignedPatchRows(db: Tables, m: Mail, pid: int, sid: int)
    requires pid in db.patches && sid in db.series
    ensures AssignedPatch(db, m, pid, sid).covers == db.covers
    ensures AssignedPatch(db, m, pid, sid).patches ==
            db.patches[pid := if m.number <= 0 then db.patches[pid]
                              else db.patches[pid].(slot := Some(Slot(sid, m.number)))]
  {
  }

  lemma AssignedRows(db: Tables, s: Step) returns (row: Patch)
    requires s.PatchStep? && (s.found.Some? ==> s.found.value in db.series)
    ensures PatchAssigned(db, s).patches == db.patches[db.nextPatch := row] && PatchAssigned(db, s).covers == db.covers
    ensures RowOf(s, row, Target(db, s.found))
  {
    var db1, sid := WithPatch(db, s.mail), Target(db, s.found);
    var db2 := WithRefs(Resolved(db1, s.mail, s.found), s.mail.project, sid, AllRefs(s.mail));
    assert db2.patches == db1.patches && db2.covers == db.covers && sid in db2.series;
    AssignedPatchRows(db2, s.mail, db.nextPatch, sid);
    row := PatchAssigned(db, s).patches[db.nextPatch];
  }

  lemma AssignedRowsGo(db: Tables, s: Step)
    requires IdsFresh(db) && s.PatchStep? && (s.found.Some? ==> s.found.value in db.series)
    ensures RowsGo(db, PatchAssigned(db, s), s, Target(db, s.found))
  {
    var row := AssignedRows(db, s);
    OneRowGoes(db, PatchAssigned(db, s), s, row, Target(db, s.found));
  }

  lemma OneRowGoes(db: Tables, db': Tables, s: Step, row: Patch, sid: int)
    requires IdsFresh(db) && RowOf(s, row, sid)
    requires db'.patches == db.patches[db.nextPatch := row] && db'.covers == db.covers
    ensures RowsGo(db, db', s, sid)
  {
  }

  lemma CoverGoes(db: Tables, s: Step)
    requires IdsFresh(db) && s.CoverStep? && (s.found.Some? ==> s.found.value in db.series)
    ensures Goes(db, CoverResolved(db, s), s, Target(db, s.found))
  {
  }

  /** What comes later for the mail changes only the columns of its row, and the events. */
  ghost predicate RowOnly(db: Tables, db': Tables, sid: int) {
    && sid in db.series && OnlySeries(db, db', sid) && SameIdentity(db.series[sid], db'.series[sid])
    && db'.refs == db.refs && db'.patches == db.patches && db'.covers == db.covers
  }

  lemma GoesOn(db: Tables, db1: Tables, db2: Tables, s: Step, sid: int)
    requires Goes(db, db1, s, sid) && RowOnly(db1, db2, sid)
    ensures Goes(db, db2, s, sid)
  {
  }

  lemma UnlinkedGoes(db: Tables, s: Step)
    requires IdsFresh(db) && (s.found.Some? ==> s.found.value in db.series)
    ensures Goes(db, Unlinked(db, s), s, Target(db, s.found))
  {
    var sid := Target(db, s.found);
    if s.PatchStep? {
      AssignedSeriesGoes(db, s);
      AssignedRefsGo(db, s);
      AssignedRowsGo(db, s);
      SlotOfAssigned(db, s);
      GoesOn(db, PatchAssigned(db, s), PatchCompletedTables(db, s), s, sid);
    } else {
      CoverGoes(db, s);
      GoesOn(db, CoverResolved(db, s), CoverNamed(CoverResolved(db, s), sid, s.mail.subject), s, sid);
    }
  }

  lemma LinkedGoes(db: Tables, db1: Tables, s: Step, sid: int)
    requires Goes(db, db1, s, sid) && sid in db1.series
    ensures Goes(db, Linked(db1, sid, s.previous), s, sid)
  {
    GoesOn(db, db1, Linked(db1, sid, s.previous), s, sid);
  }

  lemma StepGoes(db: Tables, s: Step)
    requires IdsFresh(db) && StepOk(db, s) && !Duplicate(db, s)
    ensures Goes(db, After(db, s), s, Target(db, s.found))
  {
    UnlinkedGoes(db, s);
    LinkedGoes(db, Unlinked(db, s), s, Target(db, s.found));
  }

  /**
   The references after a mail: those before it, and its own message id and the ids it refers to, as far
   as they led nowhere; a cover leaves its own id only, and only if it opened the series.
   */
  lemma RefsAfter(db: Tables, s: Step, k: MsgKey)
    requires SlotsUnique(db) && StepOk(db, s) && !Duplicate(db, s)
    ensures
      var named := k.msgid == s.mail.msgid || (s.PatchStep? && k.msgid in s.mail.refs);
      var left := k.project == s.mail.project && named && (s.PatchStep? || s.found.None?);
      && (k in After(db, s).refs <==> k in db.refs || left)
      && (k in After(db, s).refs ==>
            After(db, s).refs[k] == if k in db.refs then db.refs[k] else Target(db, s.found))
  {
    if s.PatchStep? {
      PatchEffect(db, s);
    } else {
      CoverEffect(db, s);
    }
  }

  /**
   The name after a cover: its own, prefixes stripped, if the series had none or that of its patch 1, and
   else the one it had.
   */
  lemma NameAfterCover(db: Tables, s: Step)
    requires SlotsUnique(db) && StepOk(db, s) && !Duplicate(db, s) && s.CoverStep?
    ensures
      var sid := Target(db, s.found);
      var before := if s.found.Some? then db.series[sid].name else None;
      && sid in After(db, s).series
      && After(db, s).series[sid].name ==
           (if HasOwnName(db, sid, before) then before else Some(StripPrefixes(s.mail.subject)))
  {
    CoverEffect(db, s);
  }
}
