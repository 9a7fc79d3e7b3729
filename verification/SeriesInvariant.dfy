/**
 What every run of mails keeps: slots are unique, members belong to their series, references and
 series rows are never redirected, and previous-series links go down by one version.
 */
module SeriesInvariant {
  import opened Wrappers
  import opened Tables
  import opened Ingest

  // ---------------------------------------------------------------- the invariant

  ghost predicate IdsFresh(db: Tables) {
    && (forall s :: s in db.series ==> s < db.nextSeries)
    && (forall p :: p in db.patches ==> p < db.nextPatch)
    && (forall c :: c in db.covers ==> c < db.nextCover)
  }

  ghost predicate RefsOk(db: Tables) {
    forall k :: k in db.refs ==> db.refs[k] in db.series && db.series[db.refs[k]].project == k.project
  }

  predicate Near(d: int, e: int) {
    e - SERIES_DELAY <= d <= e + SERIES_DELAY
  }

  predicate MemberOk(db: Tables, p: int)
    requires p in db.patches && db.patches[p].slot.Some?
  {
    var slot := db.patches[p].slot.value;
    && slot.number >= 1 && slot.series in db.series
    && db.series[slot.series].project == db.patches[p].project
    && Near(db.series[slot.series].date, db.patches[p].date)
  }

  ghost predicate MembersOk(db: Tables) {
    forall p :: p in db.patches && db.patches[p].slot.Some? ==> MemberOk(db, p)
  }

  predicate LinkOk(db: Tables, s: int)
    requires s in db.series && db.series[s].previous.Some?
  {
    var t := db.series[s].previous.value;
    && t in db.series
    && db.series[t].project == db.series[s].project
    && db.series[t].submitter == db.series[s].submitter
    && db.series[t].version == db.series[s].version - 1
    && db.series[t].version >= 1
  }

  ghost predicate LinksOk(db: Tables) {
    forall s :: s in db.series && db.series[s].previous.Some? ==> LinkOk(db, s)
  }

  ghost predicate CoversOk(db: Tables) {
    forall s :: s in db.series && db.series[s].cover.Some? ==>
      db.series[s].cover.value in db.covers && db.covers[db.series[s].cover.value].project == db.series[s].project
  }

  ghost predicate Inv(db: Tables) {
    IdsFresh(db) && RefsOk(db) && SlotsUnique(db) && MembersOk(db) && LinksOk(db) && CoversOk(db)
  }

  // ---------------------------------------------------------------- growth

  predicate SameIdentity(s: Series, t: Series) {
    s.project == t.project && s.submitter == t.submitter && s.version == t.version &&
    s.total == t.total && s.date == t.date
  }

  predicate SamePatch(p: Patch, q: Patch) {
    p.(slot := q.slot) == q && (p.slot.Some? ==> p.slot == q.slot)
  }

  /** Nothing stored is dropped or redirected: rows, references, slots and events only accumulate. */
  ghost predicate Grows(db: Tables, db': Tables) {
    && (forall s :: s in db.series ==> s in db'.series && SameIdentity(db.series[s], db'.series[s]))
    && (forall k :: k in db.refs ==> k in db'.refs && db'.refs[k] == db.refs[k])
    && (forall p :: p in db.patches ==> p in db'.patches && SamePatch(db.patches[p], db'.patches[p]))
    && (forall c :: c in db.covers ==> c in db'.covers && db'.covers[c] == db.covers[c])
    && db.events <= db'.events
    && db.nextSeries <= db'.nextSeries && db.nextPatch <= db'.nextPatch && db.nextCover <= db'.nextCover
  }

  lemma GrowsTransitive(a: Tables, b: Tables, c: Tables)
    requires Grows(a, b) && Grows(b, c)
    ensures Grows(a, c)
  {
  }

  // ---------------------------------------------------------------- each update keeps the invariant

  lemma KeepWithPatch(db: Tables, m: Mail)
    requires Inv(db)
    ensures Inv(WithPatch(db, m)) && Grows(db, WithPatch(db, m))
  {
  }

  lemma KeepWithCover(db: Tables, m: Mail)
    requires Inv(db)
    ensures Inv(WithCover(db, m)) && Grows(db, WithCover(db, m))
  {
  }

  lemma KeepWithSeries(db: Tables, m: Mail)
    requires Inv(db)
    ensures Inv(WithSeries(db, m)) && Grows(db, WithSeries(db, m))
    ensures Slots(WithSeries(db, m), db.nextSeries) == {}
  {
  }

  lemma KeepWithRefs(db: Tables, project: int, sid: int, ids: seq<string>)
    requires Inv(db) && sid in db.series && db.series[sid].project == project
    ensures Inv(WithRefs(db, project, sid, ids)) && Grows(db, WithRefs(db, project, sid, ids))
  {
  }

  lemma KeepWithSlot(db: Tables, pid: int, sid: int, n: int)
    requires Inv(db)
    requires pid in db.patches && db.patches[pid].slot.None? && sid in db.series
    requires n >= 1 && n !in Slots(db, sid)
    requires db.series[sid].project == db.patches[pid].project
    requires Near(db.series[sid].date, db.patches[pid].date)
    ensures Inv(WithSlot(db, pid, sid, n)) && Grows(db, WithSlot(db, pid, sid, n))
  {
    var db' := WithSlot(db, pid, sid, n);
    forall p, q | p in db'.patches && q in db'.patches && db'.patches[p].slot.Some? &&
                  db'.patches[p].slot == db'.patches[q].slot
      ensures p == q
    {
      if p != q && (p == pid || q == pid) {
        SlotHasOccupant(db, sid, n);
        assert InSlot(db, if p == pid then q else p, sid, n);
        assert false;
      }
    }
    forall p | p in db'.patches && db'.patches[p].slot.Some? ensures MemberOk(db', p) {
      if p != pid {
        assert MemberOk(db, p);
      }
    }
  }

  /** Names, covers and valid links may be rewritten. */
  lemma KeepUpdate(db: Tables, sid: int, s: Series)
    requires Inv(db) && sid in db.series && SameIdentity(db.series[sid], s)
    requires s.cover.Some? ==> s.cover.value in db.covers && db.covers[s.cover.value].project == s.project
    requires s.previous.Some? ==> LinkOk(Update(db, sid, s), sid)
    ensures Inv(Update(db, sid, s)) && Grows(db, Update(db, sid, s))
  {
    var db' := Update(db, sid, s);
    forall p | p in db'.patches && db'.patches[p].slot.Some? ensures MemberOk(db', p) {
      assert MemberOk(db, p);
    }
    forall t | t in db'.series && db'.series[t].previous.Some? ensures LinkOk(db', t) {
      if t != sid {
        assert LinkOk(db, t);
      }
    }
  }

  // ---------------------------------------------------------------- one mail

  /** What the lookup guarantees about the series a mail goes to. */
  lemma TargetFits(db: Tables, s: Step)
    requires Inv(db) && Dispatched(s) && Located(db, s)
    ensures s.found.Some? ==>
      Fits(db, if s.PatchStep? then PatchQuery(s.mail) else CoverQuery(s.mail), s.found.value)
  {
    if s.found.Some? {
      if s.PatchStep? {
        var db1 := WithPatch(db, s.mail);
        FoundMeaning(db1, PatchQuery(s.mail), s.found);
        SlotsUnchanged(db, db1, s.found.value);
      } else {
        var db1 := WithCover(db, s.mail);
        FoundMeaning(db1, CoverQuery(s.mail), s.found);
      }
    }
  }

  /** Rows without a slot do not show in any series. */
  lemma SlotsUnchanged(db: Tables, db': Tables, sid: int)
    requires forall p :: IsMember(db, p, sid) <==> IsMember(db', p, sid)
    requires forall p :: IsMember(db, p, sid) ==> NumberOf(db, p) == NumberOf(db', p)
    ensures Members(db, sid) == Members(db', sid)
    ensures Slots(db, sid) == Slots(db', sid)
  {
    assert Members(db, sid) == Members(db', sid);
  }

  /** The row a mail goes to carries the mail's project, version and total, and a date near it. */
  predicate RowFits(row: Series, m: Mail) {
    row.project == m.project && row.version == m.version && row.total == m.total && Near(row.date, m.date)
  }

  lemma KeepResolved(db: Tables, s: Step)
    requires Inv(db) && Dispatched(s) && Located(db, s) && s.PatchStep?
    ensures var db1 := Resolved(WithPatch(db, s.mail), s.mail, s.found);
      && Inv(db1) && Grows(db, db1) && Target(db, s.found) in db1.series
      && RowFits(db1.series[Target(db, s.found)], s.mail)
      && (s.mail.number > 0 ==> s.mail.number !in Slots(db1, Target(db, s.found)))
  {
    KeepWithPatch(db, s.mail);
    var db0 := WithPatch(db, s.mail);
    if s.found.None? {
      KeepWithSeries(db0, s.mail);
      GrowsTransitive(db, db0, WithSeries(db0, s.mail));
    } else {
      TargetFits(db, s);
      SlotsUnchanged(db, db0, s.found.value);
    }
  }

  lemma KeepAssignedPatch(db: Tables, m: Mail, pid: int, sid: int)
    requires Inv(db) && pid in db.patches && sid in db.series
    requires db.patches[pid].slot.None? && db.patches[pid].project == m.project && db.patches[pid].date == m.date
    requires db.series[sid].project == m.project && Near(db.series[sid].date, m.date)
    requires m.number > 0 ==> m.number !in Slots(db, sid)
    ensures Inv(AssignedPatch(db, m, pid, sid)) && Grows(db, AssignedPatch(db, m, pid, sid))
  {
    if m.number > 0 {
      var db1 := WithSlot(db, pid, sid, m.number);
      KeepWithSlot(db, pid, sid, m.number);
      var db2 := NamedByFirst(db1, pid, sid, m.number);
      if db2 != db1 {
        assert db1.series[sid].previous.Some? ==> LinkOk(db1, sid);
        KeepUpdate(db1, sid, db1.series[sid].(name := Some(db1.patches[pid].name)));
        GrowsTransitive(db, db1, db2);
      }
    }
  }

  lemma KeepPatchAssigned(db: Tables, s: Step)
    requires Inv(db) && Dispatched(s) && Located(db, s) && s.PatchStep?
    ensures Inv(PatchAssigned(db, s)) && Grows(db, PatchAssigned(db, s))
    ensures Target(db, s.found) in PatchAssigned(db, s).series
    ensures RowFits(PatchAssigned(db, s).series[Target(db, s.found)], s.mail)
  {
    var m, sid, pid := s.mail, Target(db, s.found), db.nextPatch;
    var db1 := Resolved(WithPatch(db, m), m, s.found);
    KeepResolved(db, s);
    var db2 := WithRefs(db1, m.project, sid, AllRefs(m));
    KeepWithRefs(db1, m.project, sid, AllRefs(m));
    GrowsTransitive(db, db1, db2);
    SlotsUnchanged(db1, db2, sid);
    KeepAssignedPatch(db2, m, pid, sid);
    GrowsTransitive(db, db2, PatchAssigned(db, s));
  }

  lemma KeepEvents(db: Tables, more: seq<Event>)
    requires Inv(db)
    ensures Inv(db.(events := db.events + more)) && Grows(db, db.(events := db.events + more))
  {
    var db' := db.(events := db.events + more);
    assert forall s | s in db.series && db.series[s].previous.Some? :: LinkOk(db, s) ==> LinkOk(db', s);
  }

  lemma KeepCoverResolved(db: Tables, s: Step)
    requires Inv(db) && Dispatched(s) && Located(db, s) && s.CoverStep?
    ensures Inv(CoverResolved(db, s)) && Grows(db, CoverResolved(db, s))
    ensures RowFits(CoverResolved(db, s).series[Target(db, s.found)], s.mail)
  {
    var m, sid := s.mail, Target(db, s.found);
    var db1 := WithCover(db, m);
    KeepWithCover(db, m);
    var db2 := if s.found.Some? then db1 else WithRefs(WithSeries(db1, m), m.project, sid, [m.msgid]);
    if s.found.None? {
      KeepWithSeries(db1, m);
      KeepWithRefs(WithSeries(db1, m), m.project, sid, [m.msgid]);
      GrowsTransitive(db, db1, WithSeries(db1, m));
      GrowsTransitive(db, WithSeries(db1, m), db2);
    } else {
      TargetFits(db, s);
    }
    assert db2.series[sid].previous.Some? ==> LinkOk(db2, sid);
    KeepUpdate(db2, sid, db2.series[sid].(cover := Some(db.nextCover)));
    GrowsTransitive(db, db2, CoverResolved(db, s));
  }

  lemma KeepUnlinked(db: Tables, s: Step)
    requires Inv(db) && Dispatched(s) && Located(db, s)
    ensures Inv(Unlinked(db, s)) && Grows(db, Unlinked(db, s))
    ensures RowFits(Unlinked(db, s).series[Target(db, s.found)], s.mail)
  {
    if s.PatchStep? {
      KeepUnlinkedPatch(db, s);
    } else {
      KeepUnlinkedCover(db, s);
    }
  }

  lemma KeepCompletions(db: Tables, sid: int, n: int)
    requires Inv(db) && sid in db.series && (n > 0 ==> n in Slots(db, sid))
    ensures Inv(WithCompletions(db, sid, n)) && Grows(db, WithCompletions(db, sid, n))
    ensures WithCompletions(db, sid, n).series == db.series
  {
    var one, two := PatchCompletedEvents(db, sid, n), SeriesCompletedEvents(db, sid);
    assert db.events + one + two == db.events + (one + two);
    KeepEvents(db, one + two);
  }

  lemma KeepUnlinkedPatch(db: Tables, s: Step)
    requires Inv(db) && Dispatched(s) && Located(db, s) && s.PatchStep?
    ensures Inv(Unlinked(db, s)) && Grows(db, Unlinked(db, s))
    ensures RowFits(Unlinked(db, s).series[Target(db, s.found)], s.mail)
  {
    KeepPatchAssigned(db, s);
    SlotOfAssigned(db, s);
    var db1 := PatchAssigned(db, s);
    KeepCompletions(db1, Target(db, s.found), s.mail.number);
    GrowsTransitive(db, db1, Unlinked(db, s));
  }

  lemma KeepUnlinkedCover(db: Tables, s: Step)
    requires Inv(db) && Dispatched(s) && Located(db, s) && s.CoverStep?
    ensures Inv(Unlinked(db, s)) && Grows(db, Unlinked(db, s))
    ensures RowFits(Unlinked(db, s).series[Target(db, s.found)], s.mail)
  {
    var sid := Target(db, s.found);
    KeepCoverResolved(db, s);
    var db1 := CoverResolved(db, s);
    assert db1.series[sid].previous.Some? ==> LinkOk(db1, sid);
    KeepUpdate(db1, sid, db1.series[sid].(name := Some(Similarity.StripPrefixes(s.mail.subject))));
    GrowsTransitive(db, db1, Unlinked(db, s));
  }

  /** linkPreviousSeries only ever picks the version right below, of the same project and submitter. */
  lemma ChosenLinkIsOk(db: Tables, project: int, refs: seq<string>, sid: int, name: Option<string>, r: Option<int>)
    requires Inv(db) && sid in db.series && db.series[sid].project == project
    requires PreviousFor(db, project, refs, sid, name, r) && r.Some?
    ensures r.value != sid && LinkOk(Linked(db, sid, r), sid)
  {
    if exists i :: 0 <= i < |refs| && RefersToPrevious(db, project, refs[i], sid) {
      assert r.value in db.series && db.series[r.value].project == project;
    } else {
      assert r.value in Candidates(db, project, db.series[sid].submitter, db.series[sid].version - 1);
    }
  }

  lemma StepKeepsInvariant(db: Tables, s: Step)
    requires Inv(db) && StepOk(db, s)
    ensures Inv(After(db, s)) && Grows(db, After(db, s))
  {
    if !Duplicate(db, s) {
      KeepUnlinked(db, s);
      if s.previous.Some? {
        var db1, sid := Unlinked(db, s), Target(db, s.found);
        ChosenLinkIsOk(db1, s.mail.project, s.mail.refs, sid, NameInMemory(db, s), s.previous);
        KeepUpdate(db1, sid, db1.series[sid].(previous := s.previous));
        GrowsTransitive(db, db1, After(db, s));
      }
    }
  }

  // ---------------------------------------------------------------- runs

  lemma {:induction false} RunKeepsInvariant(db: Tables, steps: seq<Step>)
    requires Inv(db) && RunOk(db, steps)
    ensures Inv(AfterRun(db, steps)) && Grows(db, AfterRun(db, steps))
    decreases |steps|
  {
    if steps != [] {
      var init := steps[..|steps| - 1];
      RunKeepsInvariant(db, init);
      StepKeepsInvariant(AfterRun(db, init), steps[|steps| - 1]);
      GrowsTransitive(db, AfterRun(db, init), AfterRun(db, steps));
    }
  }

  /** What holds after a prefix of a run still holds at its end, up to growth. */
  lemma {:induction false} RunGrows(db: Tables, steps: seq<Step>, i: nat)
    requires Inv(db) && RunOk(db, steps) && i <= |steps|
    ensures RunOk(db, steps[..i])
    ensures Grows(AfterRun(db, steps[..i]), AfterRun(db, steps))
    decreases |steps|
  {
    RunPrefix(db, steps, i);
    if i == |steps| {
      assert steps[..i] == steps;
    } else {
      var init := steps[..|steps| - 1];
      RunGrows(db, init, i);
      assert init[..i] == steps[..i];
      RunKeepsInvariant(db, init);
      StepKeepsInvariant(AfterRun(db, init), steps[|steps| - 1]);
      GrowsTransitive(AfterRun(db, steps[..i]), AfterRun(db, init), AfterRun(db, steps));
    }
  }

  /** A (project, msgid) reference, once stored, leads to the same series of that project for ever. */
  lemma ReferencesAreStable(db: Tables, steps: seq<Step>, i: nat, k: MsgKey)
    requires Inv(db) && RunOk(db, steps) && i <= |steps|
    requires RunOk(db, steps[..i]) && k in AfterRun(db, steps[..i]).refs
    ensures k in AfterRun(db, steps).refs
    ensures AfterRun(db, steps).refs[k] == AfterRun(db, steps[..i]).refs[k]
    ensures AfterRun(db, steps).refs[k] in AfterRun(db, steps).series
    ensures AfterRun(db, steps).series[AfterRun(db, steps).refs[k]].project == k.project
  {
    RunGrows(db, steps, i);
    RunKeepsInvariant(db, steps);
  }

  lemma StepTakesSlot(db: Tables, s: Step)
    requires Inv(db) && StepOk(db, s) && !Duplicate(db, s) && s.PatchStep? && s.mail.number > 0
    ensures InSlot(After(db, s), db.nextPatch, Target(db, s.found), s.mail.number)
    ensures Target(db, s.found) in After(db, s).series && RowFits(After(db, s).series[Target(db, s.found)], s.mail)
    ensures After(db, s).patches[db.nextPatch].msgid == s.mail.msgid
  {
    KeepUnlinked(db, s);
    SlotOfAssigned(db, s);
    SlotStaysLinked(Unlinked(db, s), Target(db, s.found), s.previous, db.nextPatch, s.mail);
  }

  lemma SlotStaysLinked(db: Tables, sid: int, previous: Option<int>, p: int, m: Mail)
    requires sid in db.series && RowFits(db.series[sid], m)
    ensures sid in Linked(db, sid, previous).series && RowFits(Linked(db, sid, previous).series[sid], m)
    ensures Linked(db, sid, previous).patches == db.patches
  {
  }

  /** A slot that is taken stays taken, by the same mail and in a series of the same identity. */
  lemma SlotStays(db: Tables, db': Tables, p: int, sid: int, m: Mail)
    requires Grows(db, db') && InSlot(db, p, sid, m.number)
    requires sid in db.series && RowFits(db.series[sid], m) && db.patches[p].msgid == m.msgid
    ensures InSlot(db', p, sid, m.number)
    ensures sid in db'.series && RowFits(db'.series[sid], m) && db'.patches[p].msgid == m.msgid
  {
  }

  /**
   A numbered diff that is not a duplicate takes the slot of its number for the rest of the run,
   in a series with its own project, version and total.
   */
  lemma NumberedDiffKeepsItsSlot(db: Tables, steps: seq<Step>, i: nat)
    requires Inv(db) && RunOk(db, steps) && i < |steps|
    requires RunOk(db, steps[..i])
    requires steps[i].PatchStep? && steps[i].mail.number > 0 && !Duplicate(AfterRun(db, steps[..i]), steps[i])
    ensures
      var before, last, m := AfterRun(db, steps[..i]), AfterRun(db, steps), steps[i].mail;
      var sid := Target(before, steps[i].found);
      && InSlot(last, before.nextPatch, sid, m.number)
      && sid in last.series && RowFits(last.series[sid], m)
      && last.patches[before.nextPatch].msgid == m.msgid
  {
    RunPrefix(db, steps, i);
    RunKeepsInvariant(db, steps[..i]);
    var before := AfterRun(db, steps[..i]);
    StepTakesSlot(before, steps[i]);
    RunGrows(db, steps, i + 1);
    var after, sid := After(before, steps[i]), Target(before, steps[i].found);
    SlotStays(after, AfterRun(db, steps), before.nextPatch, sid, steps[i].mail);
  }

  /** Members of one series share its project, hold different numbers, and lie at most 40 minutes apart. */
  lemma MembersOfOneSeries(db: Tables, steps: seq<Step>, p: int, q: int, sid: int)
    requires Inv(db) && RunOk(db, steps)
    requires IsMember(AfterRun(db, steps), p, sid) && IsMember(AfterRun(db, steps), q, sid) && p != q
    ensures var last := AfterRun(db, steps);
      && last.patches[p].project == last.patches[q].project
      && NumberOf(last, p) != NumberOf(last, q)
      && last.patches[p].date - last.patches[q].date <= 40 * 60
  {
    RunKeepsInvariant(db, steps);
    var last := AfterRun(db, steps);
    assert MemberOk(last, p) && MemberOk(last, q);
    assert last.patches[p].slot == last.patches[q].slot ==> p == q;
  }

  // ---------------------------------------------------------------- version chains

  /** A path along previous-series links. */
  ghost predicate Chain(db: Tables, c: seq<int>) {
    && c != []
    && (forall i :: 0 <= i < |c| ==> c[i] in db.series)
    && (forall i :: 0 <= i < |c| - 1 ==> db.series[c[i]].previous == Some(c[i + 1]))
  }

  lemma {:induction false} ChainDescends(db: Tables, c: seq<int>, i: nat)
    requires Inv(db) && Chain(db, c) && i < |c|
    ensures db.series[c[i]].version == db.series[c[0]].version - i
    ensures i > 0 ==> db.series[c[i]].version >= 1
    ensures db.series[c[i]].project == db.series[c[0]].project
    ensures db.series[c[i]].submitter == db.series[c[0]].submitter
  {
    if i > 0 {
      ChainDescends(db, c, i - 1);
      assert db.series[c[i - 1]].previous == Some(c[i]);
      assert LinkOk(db, c[i - 1]);
    }
  }

  /**
   After any run, a chain of previous-series links visits no series twice, stays with one project
   and submitter, and has at most v-1 links when it starts at version v.
   */
  lemma ChainsAreAcyclic(db: Tables, steps: seq<Step>, c: seq<int>)
    requires Inv(db) && RunOk(db, steps) && Chain(AfterRun(db, steps), c)
    ensures forall i, j :: 0 <= i < j < |c| ==> c[i] != c[j]
    ensures |c| > 1 ==> |c| - 1 <= AfterRun(db, steps).series[c[0]].version - 1
    ensures forall i :: 0 <= i < |c| ==>
      AfterRun(db, steps).series[c[i]].project == AfterRun(db, steps).series[c[0]].project &&
      AfterRun(db, steps).series[c[i]].submitter == AfterRun(db, steps).series[c[0]].submitter
  {
    RunKeepsInvariant(db, steps);
    var last := AfterRun(db, steps);
    forall i | 0 <= i < |c|
      ensures last.series[c[i]].version == last.series[c[0]].version - i
      ensures i > 0 ==> last.series[c[i]].version >= 1
      ensures last.series[c[i]].project == last.series[c[0]].project
      ensures last.series[c[i]].submitter == last.series[c[0]].submitter
    {
      ChainDescends(last, c, i);
    }
    ChainDescends(last, c, |c| - 1);
  }
}
