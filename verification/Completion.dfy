/**
 Completion events over whole runs (pkg/mail/event.go): patch-completed tracks the filled prefix
 of a series exactly, and series-completed comes once, with the mail that fills the last slot.
 */
module Completion {
  import opened Wrappers
  import opened FiniteSets
  import opened Tables
  import opened Ingest
  import opened SeriesInvariant

  /** The patches of the patch-completed events of a series, in the order of the events. */
  function Completed(events: seq<Event>, sid: int): seq<int> {
    if events == [] then []
    else
      var e := events[|events| - 1];
      Completed(events[..|events| - 1], sid) + (if e.PatchCompleted? && e.series == sid then [e.patch] else [])
  }

  /** How often series-completed was emitted for a series. */
  function Completions(events: seq<Event>, sid: int): nat {
    if events == [] then 0
    else Completions(events[..|events| - 1], sid) + (if events[|events| - 1] == SeriesCompleted(sid) then 1 else 0)
  }

  lemma {:induction false} CompletedConcat(a: seq<Event>, b: seq<Event>, sid: int)
    ensures Completed(a + b, sid) == Completed(a, sid) + Completed(b, sid)
    ensures Completions(a + b, sid) == Completions(a, sid) + Completions(b, sid)
  {
    if b == [] {
      assert a + b == a;
    } else {
      var init := b[..|b| - 1];
      CompletedConcat(a, init, sid);
      assert (a + b)[..|a + b| - 1] == a + init;
    }
  }

  lemma {:induction false} CompletedOfRun(events: seq<Event>, sid: int)
    requires forall i :: 0 <= i < |events| ==> events[i].PatchCompleted? && events[i].series == sid
    ensures |Completed(events, sid)| == |events|
    ensures forall i :: 0 <= i < |events| ==> Completed(events, sid)[i] == events[i].patch
    ensures Completions(events, sid) == 0
    ensures forall x :: x != sid ==> Completed(events, x) == []
    ensures forall x :: Completions(events, x) == 0
  {
    if events != [] {
      CompletedOfRun(events[..|events| - 1], sid);
    }
  }

  lemma CompletedOfOther(e: Event, sid: int)
    requires !e.PatchCompleted?
    ensures Completed([e], sid) == []
    ensures Completions([e], sid) == if e == SeriesCompleted(sid) then 1 else 0
  {
    assert [e][..0] == [];
  }

  // ---------------------------------------------------------------- patch-completed

  /** How far the slots 1, 2, 3, ... of a series are filled without a gap. */
  function FilledPrefix(db: Tables, sid: int): int {
    RunEnd(Slots(db, sid), 0)
  }

  /**
   The patch-completed events of a series are one per patch of its filled prefix, in ascending
   order of number.
   */
  ghost predicate PrefixAnnounced(db: Tables, sid: int) {
    && |Completed(db.events, sid)| == FilledPrefix(db, sid)
    && FillInOrder(db, Completed(db.events, sid), sid)
  }

  /** ids are the patches in slots 1, 2, 3, ... */
  ghost predicate FillInOrder(db: Tables, ids: seq<int>, sid: int) {
    forall i :: 0 <= i < |ids| ==> InSlot(db, ids[i], sid, i + 1)
  }

  lemma SlotsPositive(db: Tables, sid: int)
    requires Inv(db)
    ensures forall n :: n in Slots(db, sid) ==> n >= 1
    ensures sid !in db.series ==> Slots(db, sid) == {}
  {
    forall n | n in Slots(db, sid) ensures n >= 1 && sid in db.series {
      var p := Occupant(db, sid, n);
      assert MemberOk(db, p);
    }
  }

  /** A mail without completions changes slots and events only as assignSeries says. */
  lemma EventsOfAssigned(db: Tables, s: Step)
    requires s.found.Some? ==> s.found.value in db.series
    requires s.PatchStep?
    ensures PatchAssigned(db, s).events ==
            db.events + [PatchCreated(db.nextPatch)] + if s.found.None? then [SeriesCreated(db.nextSeries)] else []
  {
  }

  lemma OneOtherEvent(events: seq<Event>, e: Event, x: int)
    requires e.PatchCreated? || e.SeriesCreated? || e.CoverCreated?
    ensures Completed(events + [e], x) == Completed(events, x)
    ensures Completions(events + [e], x) == Completions(events, x)
  {
    CompletedConcat(events, [e], x);
    CompletedOfOther(e, x);
  }

  lemma EventsBeforeCompletion(db: Tables, s: Step, x: int)
    requires s.found.Some? ==> s.found.value in db.series
    requires s.PatchStep?
    ensures Completed(PatchAssigned(db, s).events, x) == Completed(db.events, x)
    ensures Completions(PatchAssigned(db, s).events, x) == Completions(db.events, x)
  {
    EventsOfAssigned(db, s);
    OneOtherEvent(db.events, PatchCreated(db.nextPatch), x);
    if s.found.None? {
      OneOtherEvent(db.events + [PatchCreated(db.nextPatch)], SeriesCreated(db.nextSeries), x);
    } else {
      assert PatchAssigned(db, s).events == db.events + [PatchCreated(db.nextPatch)];
    }
  }

  lemma PatchesOfAssigned(db: Tables, s: Step)
    requires s.PatchStep? && (s.found.Some? ==> s.found.value in db.series)
    ensures var slot := if s.mail.number > 0 then Some(Slot(Target(db, s.found), s.mail.number)) else None;
      var row := WithPatch(db, s.mail).patches[db.nextPatch].(slot := slot);
      PatchAssigned(db, s).patches == db.patches[db.nextPatch := row]
  {
  }

  /** A new patch adds its slot to the slots of its series, and nothing to any other. */
  lemma SlotsWithNew(db: Tables, db1: Tables, pid: int, row: Patch, x: int)
    requires pid !in db.patches && db1.patches == db.patches[pid := row]
    ensures Slots(db1, x) ==
      Slots(db, x) + (if row.slot.Some? && row.slot.value.series == x then {row.slot.value.number} else {})
  {
    forall p | p in db.patches
      ensures IsMember(db1, p, x) <==> IsMember(db, p, x)
      ensures NumberOf(db1, p) == NumberOf(db, p)
    {
      assert p != pid;
    }
    if row.slot.Some? && row.slot.value.series == x {
      assert Members(db1, x) == Members(db, x) + {pid};
      assert NumberOf(db1, pid) == row.slot.value.number;
    } else {
      assert Members(db1, x) == Members(db, x);
    }
  }

  lemma SlotsBeforeCompletion(db: Tables, s: Step, x: int)
    requires Inv(db) && s.PatchStep?
    requires s.found.Some? ==> s.found.value in db.series
    ensures Slots(PatchAssigned(db, s), x) ==
      Slots(db, x) + (if x == Target(db, s.found) && s.mail.number > 0 then {s.mail.number} else {})
  {
    PatchesOfAssigned(db, s);
    var db1 := PatchAssigned(db, s);
    SlotsWithNew(db, db1, db.nextPatch, db1.patches[db.nextPatch], x);
  }

  /** The count of predecessors decides whether everything before n is there. */
  lemma CountDecides(db: Tables, sid: int, n: int)
    requires SlotsUnique(db) && n >= 1
    requires forall x :: x in Slots(db, sid) ==> x >= 1
    ensures |Predecessors(db, sid, n)| == n - 1 <==> Interval(1, n) <= Slots(db, sid)
  {
    MembersAreSlots(db, sid);
    Pigeonhole(Slots(db, sid), n);
  }

  /** n is announced exactly when the filled prefix stopped right before it. */
  lemma WhenAnnounced(db: Tables, sid: int, n: int, before: set<int>)
    requires SlotsUnique(db) && n >= 1 && n !in before
    requires forall x :: x in before ==> x >= 1
    requires Slots(db, sid) == before + {n}
    ensures |Predecessors(db, sid, n)| == n - 1 <==> RunEnd(before, 0) == n - 1
  {
    CountDecides(db, sid, n);
    RunStopsBefore(before, n);
    assert n !in Interval(1, n);
    assert Interval(1, n) <= before <==> Interval(1, n) <= before + {n};
  }

  lemma RunAt(db: Tables, sid: int, n: int, j: nat)
    requires n in Slots(db, sid) && j < |CompletedRun(db, sid, n)|
    ensures var e := CompletedRun(db, sid, n)[j];
      e.PatchCompleted? && e.series == sid && InSlot(db, e.patch, sid, n + j)
  {
    assert InSlot(db, Occupant(db, sid, n + j), sid, n + j);
  }

  lemma RunInSlots(db: Tables, sid: int, n: int)
    requires n in Slots(db, sid)
    ensures var more := Completed(CompletedRun(db, sid, n), sid);
      && |more| == RunEnd(Slots(db, sid), n) - n + 1
      && forall j :: 0 <= j < |more| ==> InSlot(db, more[j], sid, n + j)
  {
    var run := CompletedRun(db, sid, n);
    forall j: nat | j < |run|
      ensures run[j].PatchCompleted? && run[j].series == sid && InSlot(db, run[j].patch, sid, n + j) {
      RunAt(db, sid, n, j);
    }
    CompletedOfRun(run, sid);
  }

  lemma FillsOn(db: Tables, sid: int, ids: seq<int>, more: seq<int>)
    requires FillInOrder(db, ids, sid)
    requires forall j :: 0 <= j < |more| ==> InSlot(db, more[j], sid, |ids| + 1 + j)
    ensures FillInOrder(db, ids + more, sid)
  {
    forall i | 0 <= i < |ids + more| ensures InSlot(db, (ids + more)[i], sid, i + 1) {
      if i < |ids| {
        assert InSlot(db, ids[i], sid, i + 1);
      } else {
        assert InSlot(db, more[i - |ids|], sid, |ids| + 1 + (i - |ids|));
      }
    }
  }

  lemma RunFillsOn(db: Tables, sid: int, n: int, ids: seq<int>)
    requires n in Slots(db, sid) && n >= 1
    requires FillInOrder(db, ids, sid) && |ids| == n - 1
    ensures FillInOrder(db, ids + Completed(CompletedRun(db, sid, n), sid), sid)
    ensures |Completed(CompletedRun(db, sid, n), sid)| == RunEnd(Slots(db, sid), n) - n + 1
  {
    RunInSlots(db, sid, n);
    FillsOn(db, sid, ids, Completed(CompletedRun(db, sid, n), sid));
  }

  /** The heart of createPatchCompletedEvent: announcing n and its run restores the prefix. */
  lemma AnnounceRestores(db: Tables, sid: int, n: int, before: set<int>)
    requires SlotsUnique(db) && n >= 1 && n !in before
    requires forall x :: x in before ==> x >= 1
    requires Slots(db, sid) == before + {n}
    requires |Completed(db.events, sid)| == RunEnd(before, 0)
    requires FillInOrder(db, Completed(db.events, sid), sid)
    ensures
      var ids := Completed(db.events, sid) + Completed(PatchCompletedEvents(db, sid, n), sid);
      |ids| == FilledPrefix(db, sid) && FillInOrder(db, ids, sid)
  {
    WhenAnnounced(db, sid, n, before);
    if RunEnd(before, 0) == n - 1 {
      RunEndJoins(before, n);
      RunFillsOn(db, sid, n, Completed(db.events, sid));
    } else {
      RunEndStays(before, n);
    }
  }

  lemma NewEventsOfPatch(db: Tables, sid: int, n: int, x: int)
    requires sid in db.series && (n > 0 ==> n in Slots(db, sid))
    ensures x != sid ==> Completed(PatchCompletedEvents(db, sid, n), x) == []
    ensures Completions(PatchCompletedEvents(db, sid, n), x) == 0
    ensures Completed(SeriesCompletedEvents(db, sid), x) == []
    ensures Completions(SeriesCompletedEvents(db, sid), x) ==
      if x == sid && db.series[sid].total > 0 && |Members(db, sid)| >= db.series[sid].total then 1 else 0
  {
    CompletedOfRun(PatchCompletedEvents(db, sid, n), sid);
    var es := SeriesCompletedEvents(db, sid);
    if es != [] {
      CompletedOfOther(es[0], x);
    }
  }

  lemma PrefixCarries(db: Tables, db': Tables, ids: seq<int>, x: int)
    requires Grows(db, db') && FillInOrder(db, ids, x)
    ensures FillInOrder(db', ids, x)
  {
    forall i | 0 <= i < |ids| ensures InSlot(db', ids[i], x, i + 1) {
      assert InSlot(db, ids[i], x, i + 1);
    }
  }

  lemma EventsOfPatch(db: Tables, s: Step, x: int)
    requires s.found.Some? ==> s.found.value in db.series
    requires s.PatchStep?
    requires s.mail.number > 0 ==> s.mail.number in Slots(PatchAssigned(db, s), Target(db, s.found))
    requires Target(db, s.found) in PatchAssigned(db, s).series
    ensures Completed(PatchCompletedTables(db, s).events, x) ==
      Completed(db.events, x) +
      Completed(PatchCompletedEvents(PatchAssigned(db, s), Target(db, s.found), s.mail.number), x)
    ensures Completions(PatchCompletedTables(db, s).events, x) ==
      Completions(db.events, x) + Completions(SeriesCompletedEvents(PatchAssigned(db, s), Target(db, s.found)), x)
  {
    var db1, sid, n := PatchAssigned(db, s), Target(db, s.found), s.mail.number;
    EventsBeforeCompletion(db, s, x);
    NewEventsOfPatch(db1, sid, n, x);
    var pce, sce := PatchCompletedEvents(db1, sid, n), SeriesCompletedEvents(db1, sid);
    CompletedConcat(db1.events, pce, x);
    CompletedConcat(db1.events + pce, sce, x);
  }

  /** What is announced for x after assignSeries and with more events, when these carry on where the prefix ended. */
  lemma AnnouncedMore(db1: Tables, db3: Tables, ids: seq<int>, x: int)
    requires db3.patches == db1.patches && Completed(db3.events, x) == ids
    requires |ids| == FilledPrefix(db1, x) && FillInOrder(db1, ids, x)
    ensures PrefixAnnounced(db3, x)
  {
    SameSlots(db1, db3, x);
    forall i | 0 <= i < |ids| ensures InSlot(db3, ids[i], x, i + 1) {
      assert InSlot(db1, ids[i], x, i + 1);
    }
  }

  lemma AssignedAnnounces(db: Tables, s: Step, x: int)
    requires Inv(db) && Dispatched(s) && Located(db, s) && s.PatchStep? && PrefixAnnounced(db, x)
    requires s.mail.number > 0 ==> s.mail.number in Slots(PatchAssigned(db, s), Target(db, s.found))
    ensures var db1 := PatchAssigned(db, s);
      var ids := Completed(db1.events, x) + Completed(PatchCompletedEvents(db1, Target(db, s.found), s.mail.number), x);
      |ids| == FilledPrefix(db1, x) && FillInOrder(db1, ids, x)
  {
    var db1, sid, n := PatchAssigned(db, s), Target(db, s.found), s.mail.number;
    KeepPatchAssigned(db, s);
    EventsBeforeCompletion(db, s, x);
    SlotsBeforeCompletion(db, s, x);
    PrefixCarries(db, db1, Completed(db.events, x), x);
    if x == sid && n > 0 {
      FreeSlot(db, s);
      SlotsPositive(db, sid);
      AnnounceRestores(db1, sid, n, Slots(db, sid));
    } else {
      NewEventsOfPatch(db1, sid, n, x);
      assert Completed(db1.events, x) + [] == Completed(db1.events, x);
    }
  }

  lemma PatchKeepsPrefix(db: Tables, s: Step, x: int)
    requires Inv(db) && Dispatched(s) && Located(db, s) && s.PatchStep?
    requires PrefixAnnounced(db, x)
    ensures PrefixAnnounced(PatchCompletedTables(db, s), x)
  {
    var db1 := PatchAssigned(db, s);
    SlotOfAssigned(db, s);
    EventsBeforeCompletion(db, s, x);
    EventsOfPatch(db, s, x);
    AssignedAnnounces(db, s, x);
    AnnouncedMore(db1, PatchCompletedTables(db, s), Completed(PatchCompletedTables(db, s).events, x), x);
  }

  /** The slot a numbered diff takes was free. */
  lemma FreeSlot(db: Tables, s: Step)
    requires Inv(db) && Dispatched(s) && Located(db, s) && s.PatchStep? && s.mail.number > 0
    ensures s.mail.number !in Slots(db, Target(db, s.found))
  {
    TargetFits(db, s);
    SlotsPositive(db, Target(db, s.found));
  }

  lemma SameSlots(db: Tables, db': Tables, x: int)
    requires db'.patches == db.patches
    ensures Slots(db', x) == Slots(db, x) && Members(db', x) == Members(db, x)
  {
    SlotsUnchanged(db, db', x);
  }

  lemma EventsUpToCover(db: Tables, s: Step)
    requires s.found.Some? ==> s.found.value in db.series
    requires s.CoverStep?
    ensures Unlinked(db, s).events ==
            db.events + [CoverCreated(db.nextCover)] + if s.found.None? then [SeriesCreated(db.nextSeries)] else []
  {
  }

  lemma EventsOfCover(db: Tables, s: Step, x: int)
    requires s.found.Some? ==> s.found.value in db.series
    requires s.CoverStep?
    ensures Completed(Unlinked(db, s).events, x) == Completed(db.events, x)
    ensures Completions(Unlinked(db, s).events, x) == Completions(db.events, x)
  {
    EventsUpToCover(db, s);
    OneOtherEvent(db.events, CoverCreated(db.nextCover), x);
    if s.found.None? {
      OneOtherEvent(db.events + [CoverCreated(db.nextCover)], SeriesCreated(db.nextSeries), x);
    } else {
      assert Unlinked(db, s).events == db.events + [CoverCreated(db.nextCover)];
    }
  }

  /** Where the patches and the patch-completed events are the same, so is what is announced. */
  lemma SameAnnounced(db: Tables, db': Tables, x: int)
    requires db'.patches == db.patches && Completed(db'.events, x) == Completed(db.events, x)
    requires PrefixAnnounced(db, x)
    ensures PrefixAnnounced(db', x)
  {
    SameSlots(db, db', x);
    forall i | 0 <= i < |Completed(db.events, x)| ensures InSlot(db', Completed(db.events, x)[i], x, i + 1) {
      assert InSlot(db, Completed(db.events, x)[i], x, i + 1);
    }
  }

  lemma UnlinkedKeepsPrefix(db: Tables, s: Step, x: int)
    requires Inv(db) && Dispatched(s) && Located(db, s) && PrefixAnnounced(db, x)
    ensures PrefixAnnounced(Unlinked(db, s), x)
  {
    if s.PatchStep? {
      PatchKeepsPrefix(db, s, x);
    } else {
      EventsOfCover(db, s, x);
      SameAnnounced(db, Unlinked(db, s), x);
    }
  }

  lemma LinkKeepsPrefix(db: Tables, sid: int, previous: Option<int>, x: int)
    requires sid in db.series && PrefixAnnounced(db, x)
    ensures PrefixAnnounced(Linked(db, sid, previous), x)
  {
    SameAnnounced(db, Linked(db, sid, previous), x);
  }

  lemma StepKeepsPrefix(db: Tables, s: Step, x: int)
    requires Inv(db) && StepOk(db, s) && PrefixAnnounced(db, x)
    ensures PrefixAnnounced(After(db, s), x)
  {
    if !Duplicate(db, s) {
      UnlinkedKeepsPrefix(db, s, x);
      LinkKeepsPrefix(Unlinked(db, s), Target(db, s.found), s.previous, x);
    }
  }

  /**
   After every run, for every series: the patch-completed events emitted so far are exactly one
   per patch of the maximal filled prefix 1..p, in ascending order of number.
   */
  lemma {:induction false} RunAnnouncesPrefixes(db: Tables, steps: seq<Step>, sid: int)
    requires Inv(db) && RunOk(db, steps) && PrefixAnnounced(db, sid)
    ensures PrefixAnnounced(AfterRun(db, steps), sid)
    decreases |steps|
  {
    if steps != [] {
      var init := steps[..|steps| - 1];
      RunKeepsInvariant(db, init);
      RunAnnouncesPrefixes(db, init, sid);
      StepKeepsPrefix(AfterRun(db, init), steps[|steps| - 1], sid);
    }
  }

  lemma EmptyTablesAreFine(sid: int)
    ensures Inv(EMPTY) && PrefixAnnounced(EMPTY, sid)
  {
    SlotsPositive(EMPTY, sid);
  }

  // ---------------------------------------------------------------- series-completed

  /** The series holds at least as many patches as its total. */
  ghost predicate HoldsTotal(db: Tables, x: int) {
    x in db.series && db.series[x].total > 0 && |Members(db, x)| >= db.series[x].total
  }

  /**
   A diff mail that is stored at series x while the patches there and this one, if it is numbered,
   make up a positive total.
   */
  ghost predicate Completing(db: Tables, s: Step, x: int)
    requires StepOk(db, s)
  {
    && s.PatchStep? && !Duplicate(db, s) && x == Target(db, s.found)
    && s.mail.total > 0 && |Members(db, x)| + (if s.mail.number > 0 then 1 else 0) >= s.mail.total
  }

  lemma SizeOfOneMore(a: set<int>, n: int)
    requires n !in a
    ensures |a + {n}| == |a| + 1
  {
  }

  /** A stored diff mail adds one patch to its series if it is numbered, and none otherwise. */
  lemma MembersAfterPatch(db: Tables, s: Step)
    requires Inv(db) && StepOk(db, s) && !Duplicate(db, s) && s.PatchStep?
    ensures var x := Target(db, s.found);
      |Members(After(db, s), x)| == |Members(db, x)| + (if s.mail.number > 0 then 1 else 0)
  {
    var x := Target(db, s.found);
    StepKeepsInvariant(db, s);
    SlotsAfter(db, s, x);
    MembersAreSlots(db, x);
    MembersAreSlots(After(db, s), x);
    if s.mail.number > 0 {
      FreeSlot(db, s);
      SizeOfOneMore(Slots(db, x), s.mail.number);
    }
  }

  /** The series of a stored mail has the mail's total. */
  lemma TotalAfter(db: Tables, s: Step)
    requires Inv(db) && StepOk(db, s) && !Duplicate(db, s)
    ensures var x := Target(db, s.found);
      x in After(db, s).series && After(db, s).series[x].total == s.mail.total
  {
    KeepUnlinked(db, s);
    SlotStaysLinked(Unlinked(db, s), Target(db, s.found), s.previous, db.nextPatch, s.mail);
  }

  /** What can be seen before the mail is what the code counts after it. */
  lemma CompletingIsHolding(db: Tables, s: Step, x: int)
    requires Inv(db) && StepOk(db, s) && !Duplicate(db, s) && s.PatchStep? && x == Target(db, s.found)
    ensures Completing(db, s, x) <==> HoldsTotal(After(db, s), x)
  {
    MembersAfterPatch(db, s);
    TotalAfter(db, s);
  }

  lemma LinkKeepsTotal(db: Tables, sid: int, previous: Option<int>, x: int)
    requires sid in db.series
    ensures HoldsTotal(Linked(db, sid, previous), x) <==> HoldsTotal(db, x)
    ensures Linked(db, sid, previous).events == db.events
  {
    SameSlots(db, Linked(db, sid, previous), x);
  }

  lemma EventsKeepTotal(db: Tables, sid: int, n: int, x: int)
    requires sid in db.series && (n > 0 ==> n in Slots(db, sid))
    ensures HoldsTotal(WithCompletions(db, sid, n), x) <==> HoldsTotal(db, x)
  {
    SameSlots(db, WithCompletions(db, sid, n), x);
  }

  lemma PatchEmits(db: Tables, s: Step, x: int)
    requires s.PatchStep? && (s.found.Some? ==> s.found.value in db.series)
    ensures var n := PatchCompletedTables(db, s);
      Completions(n.events, x) ==
      Completions(db.events, x) + (if x == Target(db, s.found) && HoldsTotal(n, x) then 1 else 0)
  {
    SlotOfAssigned(db, s);
    EventsOfPatch(db, s, x);
    NewEventsOfPatch(PatchAssigned(db, s), Target(db, s.found), s.mail.number, x);
    EventsKeepTotal(PatchAssigned(db, s), Target(db, s.found), s.mail.number, x);
  }

  lemma {:induction false} CompletingStepsEmit(db: Tables, s: Step, x: int)
    requires Inv(db) && StepOk(db, s)
    ensures Completions(After(db, s).events, x) == Completions(db.events, x) + (if Completing(db, s, x) then 1 else 0)
  {
    if !Duplicate(db, s) {
      LinkKeepsTotal(Unlinked(db, s), Target(db, s.found), s.previous, x);
      if s.PatchStep? {
        PatchEmits(db, s, x);
        if x == Target(db, s.found) {
          CompletingIsHolding(db, s, x);
        }
      } else {
        EventsOfCover(db, s, x);
      }
    }
  }

  ghost function CompletingSteps(db: Tables, steps: seq<Step>, x: int): nat
    requires RunOk(db, steps)
    decreases |steps|
  {
    if steps == [] then 0
    else
      var init := steps[..|steps| - 1];
      CompletingSteps(db, init, x) + (if Completing(AfterRun(db, init), steps[|steps| - 1], x) then 1 else 0)
  }

  /**
   Without any assumption on the mails, series-completed is emitted once per diff mail that is stored
   at a series whose patches, with this one, make up the total.
   */
  lemma {:induction false} SeriesCompletedCount(db: Tables, steps: seq<Step>, x: int)
    requires Inv(db) && RunOk(db, steps)
    ensures Completions(AfterRun(db, steps).events, x) == Completions(db.events, x) + CompletingSteps(db, steps, x)
    decreases |steps|
  {
    if steps != [] {
      var init := steps[..|steps| - 1];
      SeriesCompletedCount(db, init, x);
      RunKeepsInvariant(db, init);
      CompletingStepsEmit(AfterRun(db, init), steps[|steps| - 1], x);
    }
  }

  /** A stored diff mail of series x with a number in 1..total. */
  predicate InRange(db: Tables, s: Step, x: int) {
    s.PatchStep? && !Duplicate(db, s) && x == Target(db, s.found) ==> 1 <= s.mail.number <= s.mail.total
  }

  ghost predicate RunInRange(db: Tables, steps: seq<Step>, x: int)
    requires RunOk(db, steps)
    decreases |steps|
  {
    steps == [] ||
    (RunInRange(db, steps[..|steps| - 1], x) &&
     InRange(AfterRun(db, steps[..|steps| - 1]), steps[|steps| - 1], x))
  }

  ghost predicate Full(db: Tables, x: int) {
    x in db.series && db.series[x].total > 0 && Slots(db, x) == Interval(1, db.series[x].total + 1)
  }

  /** Numbers stay in range, and series-completed was emitted once if the series is full, else never. */
  ghost predicate OnceWhenFull(db: Tables, x: int) {
    && (forall n :: n in Slots(db, x) ==> x in db.series && 1 <= n <= db.series[x].total)
    && Completions(db.events, x) == if Full(db, x) then 1 else 0
  }

  lemma SlotsAfter(db: Tables, s: Step, x: int)
    requires Inv(db) && StepOk(db, s) && !Duplicate(db, s)
    ensures Slots(After(db, s), x) ==
      Slots(db, x) + (if s.PatchStep? && x == Target(db, s.found) && s.mail.number > 0 then {s.mail.number} else {})
  {
    KeepUnlinked(db, s);
    SameSlots(Unlinked(db, s), After(db, s), x);
    if s.PatchStep? {
      SlotsBeforeCompletion(db, s, x);
      SameSlots(PatchAssigned(db, s), Unlinked(db, s), x);
    } else {
      SameSlots(db, Unlinked(db, s), x);
    }
  }

  lemma CountIsFull(db: Tables, x: int)
    requires SlotsUnique(db) && x in db.series && db.series[x].total > 0
    requires forall n :: n in Slots(db, x) ==> 1 <= n <= db.series[x].total
    ensures |Members(db, x)| >= db.series[x].total <==> Full(db, x)
  {
    MembersAreSlots(db, x);
    FullSet(Slots(db, x), db.series[x].total);
  }

  lemma InRangeSlots(db: Tables, s: Step, x: int)
    requires Inv(db) && StepOk(db, s) && InRange(db, s, x)
    requires forall n :: n in Slots(db, x) ==> x in db.series && 1 <= n <= db.series[x].total
    requires s.PatchStep? && !Duplicate(db, s) && x == Target(db, s.found)
    ensures x in After(db, s).series && After(db, s).series[x].total > 0
    ensures forall n :: n in Slots(After(db, s), x) ==> 1 <= n <= After(db, s).series[x].total
    ensures s.mail.number in Slots(After(db, s), x) && s.mail.number !in Slots(db, x)
  {
    StepKeepsInvariant(db, s);
    StepTakesSlot(db, s);
    SlotsAfter(db, s, x);
    FreeSlot(db, s);
  }

  /** A stored in-range diff completes its series exactly when it fills the last slot. */
  lemma InRangeCompleting(db: Tables, s: Step, x: int)
    requires Inv(db) && StepOk(db, s) && OnceWhenFull(db, x) && InRange(db, s, x)
    requires s.PatchStep? && !Duplicate(db, s) && x == Target(db, s.found)
    ensures x in After(db, s).series
    ensures forall n :: n in Slots(After(db, s), x) ==> 1 <= n <= After(db, s).series[x].total
    ensures Completing(db, s, x) <==> Full(After(db, s), x)
    ensures !Full(db, x)
  {
    InRangeSlots(db, s, x);
    StepKeepsInvariant(db, s);
    CompletingIsHolding(db, s, x);
    CountIsFull(After(db, s), x);
  }

  lemma OtherStepsKeepSlots(db: Tables, s: Step, x: int)
    requires Inv(db) && StepOk(db, s) && !Duplicate(db, s)
    requires s.CoverStep? || x != Target(db, s.found)
    ensures Slots(After(db, s), x) == Slots(db, x) && Grows(db, After(db, s))
    ensures x !in db.series ==> Slots(db, x) == {}
  {
    StepKeepsInvariant(db, s);
    SlotsAfter(db, s, x);
    SlotsPositive(db, x);
  }

  lemma OtherSeriesKeepFull(db: Tables, db': Tables, x: int)
    requires Grows(db, db') && Slots(db', x) == Slots(db, x)
    requires x !in db.series ==> Slots(db, x) == {}
    ensures Full(db', x) <==> Full(db, x)
  {
    if x !in db.series && x in db'.series && db'.series[x].total > 0 {
      assert 1 in Interval(1, db'.series[x].total + 1);
    }
  }

  lemma StepKeepsOnce(db: Tables, s: Step, x: int)
    requires Inv(db) && StepOk(db, s) && OnceWhenFull(db, x) && InRange(db, s, x)
    ensures OnceWhenFull(After(db, s), x)
  {
    CompletingStepsEmit(db, s, x);
    if !Duplicate(db, s) {
      if s.PatchStep? && x == Target(db, s.found) {
        InRangeCompleting(db, s, x);
      } else {
        OtherStepsKeepSlots(db, s, x);
        OtherSeriesKeepFull(db, After(db, s), x);
      }
    }
  }

  /**
   When every diff mail of a series has its number in 1..total, series-completed is emitted exactly
   once if all slots are filled, and not before.
   */
  lemma {:induction false} SeriesCompletedOnce(db: Tables, steps: seq<Step>, x: int)
    requires Inv(db) && RunOk(db, steps) && OnceWhenFull(db, x) && RunInRange(db, steps, x)
    ensures OnceWhenFull(AfterRun(db, steps), x)
    decreases |steps|
  {
    if steps != [] {
      var init := steps[..|steps| - 1];
      SeriesCompletedOnce(db, init, x);
      RunKeepsInvariant(db, init);
      StepKeepsOnce(AfterRun(db, init), steps[|steps| - 1], x);
    }
  }

  /** Before a series exists, nothing was announced for it and the once-rule holds. */
  lemma NewSeriesIsFine(x: int)
    ensures OnceWhenFull(EMPTY, x)
  {
    EmptyTablesAreFine(x);
    SlotsPositive(EMPTY, x);
  }

  /** The mail that fills the last slot also announces the patch with the last number. */
  lemma LastMailAnnouncesLastPatch(db: Tables, s: Step, x: int)
    requires Inv(db) && StepOk(db, s) && PrefixAnnounced(db, x)
    requires OnceWhenFull(db, x) && InRange(db, s, x) && !Full(db, x) && Full(After(db, s), x)
    ensures s.PatchStep? && x == Target(db, s.found)
    ensures Completions(After(db, s).events, x) == 1 && Completions(db.events, x) == 0
    ensures
      var total := After(db, s).series[x].total;
      && |Completed(db.events, x)| < total == |Completed(After(db, s).events, x)|
      && InSlot(After(db, s), Completed(After(db, s).events, x)[total - 1], x, total)
  {
    StepKeepsPrefix(db, s, x);
    StepKeepsOnce(db, s, x);
    var db' := After(db, s);
    var total := db'.series[x].total;
    RunEndUnique(Slots(db', x), 0, total);
    StepKeepsInvariant(db, s);
    SlotsAfter(db, s, x);
    SlotsPositive(db, x);
    SlotsPositive(db', x);
    assert 1 in Slots(db', x);
    PrefixBelowTotal(Slots(db, x), total);
  }

  lemma PrefixBelowTotal(slots: set<int>, total: int)
    requires total >= 1 && slots != Interval(1, total + 1)
    requires forall n :: n in slots ==> 1 <= n <= total
    ensures RunEnd(slots, 0) < total
  {
    var end := RunEnd(slots, 0);
    assert end >= total ==> forall n :: 0 < n <= total ==> n in slots;
    assert end >= total ==> slots == Interval(1, total + 1);
  }

  // ---------------------------------------------------------------- series-completed more than once

  /** A diff mail that is stored at a series that held its total before. */
  ghost predicate Repeating(db: Tables, s: Step, x: int)
    requires StepOk(db, s)
  {
    s.PatchStep? && !Duplicate(db, s) && s.found == Some(x) && HoldsTotal(db, x)
  }

  lemma HoldingGrows(db: Tables, db': Tables, x: int)
    requires Grows(db, db') && SlotsUnique(db) && SlotsUnique(db') && Slots(db, x) <= Slots(db', x) && HoldsTotal(db, x)
    ensures HoldsTotal(db', x)
  {
    MembersAreSlots(db, x);
    MembersAreSlots(db', x);
    SubsetSize(Slots(db, x), Slots(db', x));
  }

  lemma HoldingStays(db: Tables, db': Tables, x: int)
    requires Inv(db) && Inv(db') && Grows(db, db') && Slots(db', x) == Slots(db, x)
    ensures HoldsTotal(db', x) <==> HoldsTotal(db, x)
  {
    MembersAreSlots(db, x);
    MembersAreSlots(db', x);
    SlotsPositive(db, x);
    assert x !in db.series ==> |Slots(db, x)| == 0;
  }

  /** A new series holds no patch. */
  lemma HoldingIsFound(db: Tables, s: Step, x: int)
    requires Inv(db) && x == Target(db, s.found) && HoldsTotal(db, x)
    ensures s.found == Some(x)
  {
    assert IdsFresh(db);
  }

  /** A diff mail at x completes it exactly when x comes to hold its total or held it before. */
  lemma PatchCompletions(db: Tables, s: Step, x: int)
    requires Inv(db) && StepOk(db, s) && !Duplicate(db, s) && s.PatchStep? && x == Target(db, s.found)
    ensures HoldsTotal(db, x) ==> HoldsTotal(After(db, s), x)
    ensures Completing(db, s, x) <==> HoldsTotal(After(db, s), x)
    ensures Repeating(db, s, x) <==> HoldsTotal(db, x)
  {
    CompletingIsHolding(db, s, x);
    if HoldsTotal(db, x) {
      StepKeepsInvariant(db, s);
      SlotsAfter(db, s, x);
      HoldingIsFound(db, s, x);
      HoldingGrows(db, After(db, s), x);
    }
  }

  /** Any other mail leaves it as it is. */
  lemma OtherCompletions(db: Tables, s: Step, x: int)
    requires Inv(db) && StepOk(db, s) && !(s.PatchStep? && !Duplicate(db, s) && x == Target(db, s.found))
    ensures HoldsTotal(After(db, s), x) <==> HoldsTotal(db, x)
    ensures !Completing(db, s, x) && !Repeating(db, s, x)
  {
    if !Duplicate(db, s) {
      StepKeepsInvariant(db, s);
      SlotsAfter(db, s, x);
      HoldingStays(db, After(db, s), x);
    }
  }

  /** The events of a mail: one when the series comes to hold its total, one when it already did. */
  lemma StepCompletions(db: Tables, s: Step, x: int)
    requires Inv(db) && StepOk(db, s)
    ensures Completions(After(db, s).events, x) + (if HoldsTotal(db, x) then 1 else 0) ==
            Completions(db.events, x) + (if HoldsTotal(After(db, s), x) then 1 else 0) +
            (if Repeating(db, s, x) then 1 else 0)
  {
    CompletingStepsEmit(db, s, x);
    if s.PatchStep? && !Duplicate(db, s) && x == Target(db, s.found) {
      PatchCompletions(db, s, x);
    } else {
      OtherCompletions(db, s, x);
    }
  }

  ghost function Repeats(db: Tables, steps: seq<Step>, x: int): nat
    requires RunOk(db, steps)
    decreases |steps|
  {
    if steps == [] then 0
    else
      var init := steps[..|steps| - 1];
      Repeats(db, init, x) + (if Repeating(AfterRun(db, init), steps[|steps| - 1], x) then 1 else 0)
  }

  /**
   The exact number of series-completed events after any run: one if the series holds its total, and
   one more for each diff mail that was stored at it when it already did.
   */
  lemma {:induction false} CompletionsOfRun(db: Tables, steps: seq<Step>, x: int)
    requires Inv(db) && RunOk(db, steps)
    ensures Completions(AfterRun(db, steps).events, x) + (if HoldsTotal(db, x) then 1 else 0) ==
            Completions(db.events, x) + (if HoldsTotal(AfterRun(db, steps), x) then 1 else 0) + Repeats(db, steps, x)
    decreases |steps|
  {
    if steps != [] {
      var init := steps[..|steps| - 1];
      CompletionsOfRun(db, init, x);
      RunKeepsInvariant(db, init);
      StepCompletions(AfterRun(db, init), steps[|steps| - 1], x);
    }
  }

  /** series-completed has been emitted exactly for the series that hold their total. */
  ghost predicate Told(db: Tables, x: int) {
    Completions(db.events, x) > 0 <==> HoldsTotal(db, x)
  }

  lemma StepKeepsTold(db: Tables, s: Step, x: int)
    requires Inv(db) && StepOk(db, s) && Told(db, x)
    ensures Told(After(db, s), x)
  {
    StepCompletions(db, s, x);
    if HoldsTotal(db, x) && !HoldsTotal(After(db, s), x) {
      StepKeepsInvariant(db, s);
      SlotsAfter(db, s, x);
      HoldingGrows(db, After(db, s), x);
    }
  }

  lemma {:induction false} RunKeepsTold(db: Tables, steps: seq<Step>, x: int)
    requires Inv(db) && RunOk(db, steps) && Told(db, x)
    ensures Told(AfterRun(db, steps), x)
    decreases |steps|
  {
    if steps != [] {
      var init := steps[..|steps| - 1];
      RunKeepsTold(db, init, x);
      RunKeepsInvariant(db, init);
      StepKeepsTold(AfterRun(db, init), steps[|steps| - 1], x);
    }
  }

  /**
   Where it was emitted once at most, it stays so over a run if and only if no diff mail of the run
   is stored at the series when that already holds its total.
   */
  lemma AtMostOnceUnlessRepeated(db: Tables, steps: seq<Step>, x: int)
    requires Inv(db) && RunOk(db, steps) && Told(db, x) && Completions(db.events, x) <= 1
    ensures Completions(AfterRun(db, steps).events, x) <= 1 <==> Repeats(db, steps, x) == 0
  {
    CompletionsOfRun(db, steps, x);
    RunKeepsTold(db, steps, x);
  }

  /** A diff mail stored at a full series has number 0 or one above the total. */
  lemma FullSeriesCompletesAgain(db: Tables, s: Step, x: int)
    requires Inv(db) && StepOk(db, s) && HoldsTotal(db, x)
    requires s.PatchStep? && !Duplicate(db, s) && s.found == Some(x)
    ensures Completions(After(db, s).events, x) == Completions(db.events, x) + 1
    ensures Full(db, x) ==> !(1 <= s.mail.number <= s.mail.total)
  {
    TargetFits(db, s);
    CompletingStepsEmit(db, s, x);
  }

  /** A full series holds its total. */
  lemma FullHolds(db: Tables, x: int)
    requires Inv(db) && Full(db, x)
    ensures HoldsTotal(db, x)
  {
    MembersAreSlots(db, x);
    IntervalSize(1, db.series[x].total + 1);
  }

  const FIRST_MAIL: Mail := Mail(1, 1, "<a>", [], "only patch", 1, 1, 1, 10)
  const STRAY_MAIL: Mail := Mail(1, 1, "<b>", ["<a>"], "a diff numbered 0", 0, 1, 1, 11)

  const FIRST: Step := PatchStep(FIRST_MAIL, None, None)
  const STRAY: Step := PatchStep(STRAY_MAIL, Some(1), None)

  lemma FirstMailArrives()
    ensures StepOk(EMPTY, FIRST) && !Duplicate(EMPTY, FIRST)
  {
    var db1, q := WithPatch(EMPTY, FIRST_MAIL), PatchQuery(FIRST_MAIL);
    assert RefRows(db1, q) == {} && MarkerRows(db1, q) == {};
    assert Found(db1, q, None);
  }

  lemma FirstMailFills()
    requires StepOk(EMPTY, FIRST) && !Duplicate(EMPTY, FIRST)
    ensures Inv(After(EMPTY, FIRST)) && Full(After(EMPTY, FIRST), 1)
    ensures Completions(After(EMPTY, FIRST).events, 1) == 1
  {
    EmptyTablesAreFine(1);
    NewSeriesIsFine(1);
    StepKeepsInvariant(EMPTY, FIRST);
    StepKeepsOnce(EMPTY, FIRST, 1);
    StepTakesSlot(EMPTY, FIRST);
    SlotsAfter(EMPTY, FIRST, 1);
    SlotsPositive(EMPTY, 1);
    assert Slots(After(EMPTY, FIRST), 1) == Interval(1, 2);
  }

  lemma StrayMailArrives()
    requires StepOk(EMPTY, FIRST) && !Duplicate(EMPTY, FIRST)
    ensures StepOk(After(EMPTY, FIRST), STRAY) && !Duplicate(After(EMPTY, FIRST), STRAY)
  {
    FirstSeries(FIRST_MAIL, FIRST);
    FirstRefs(FIRST_MAIL, FIRST);
    StrayMailFinds(After(EMPTY, FIRST));
  }

  /** It does happen: "[PATCH 1/1]" followed by a reply "[PATCH 0/1]" that carries a diff. */
  lemma SeriesCompletedTwice()
    ensures RunOk(EMPTY, [] + [FIRST] + [STRAY])
    ensures Completions(AfterRun(EMPTY, [] + [FIRST] + [STRAY]).events, 1) == 2
  {
    FirstMailArrives();
    FirstMailFills();
    StrayMailArrives();
    FullHolds(After(EMPTY, FIRST), 1);
    FullSeriesCompletesAgain(After(EMPTY, FIRST), STRAY, 1);
    OneMoreStep(EMPTY, [], FIRST);
    OneMoreStep(EMPTY, [] + [FIRST], STRAY);
  }

  lemma FirstSeries(m: Mail, s: Step)
    requires s == PatchStep(m, None, None) && StepOk(EMPTY, s)
    ensures var db := After(EMPTY, s);
      && db.series.Keys == {1} && db.patches.Keys == {1} && db.patches[1].msgid == m.msgid
      && db.series[1].total == m.total && db.series[1].date == m.date && db.series[1].version == m.version
      && db.series[1].project == m.project
  {
  }

  lemma RefsOfAssigned(db: Tables, s: Step)
    requires s.PatchStep? && (s.found.Some? ==> s.found.value in db.series)
    ensures PatchAssigned(db, s).refs == WithRefs(db, s.mail.project, Target(db, s.found), AllRefs(s.mail)).refs
  {
  }

  lemma LinkKeepsRefs(db: Tables, sid: int, previous: Option<int>)
    requires sid in db.series
    ensures Linked(db, sid, previous).refs == db.refs
  {
  }

  /** A stored diff adds its references, where the key is free. */
  lemma RefsAfter(db: Tables, s: Step)
    requires StepOk(db, s) && !Duplicate(db, s) && s.PatchStep?
    ensures After(db, s).refs == WithRefs(db, s.mail.project, Target(db, s.found), AllRefs(s.mail)).refs
  {
    RefsOfAssigned(db, s);
    LinkKeepsRefs(Unlinked(db, s), Target(db, s.found), s.previous);
  }

  lemma OnlyOwnRef(db: Tables, m: Mail, sid: int)
    requires m.refs == [] && db.refs == map[]
    ensures WithRefs(db, m.project, sid, AllRefs(m)).refs == map[MsgKey(m.project, m.msgid) := sid]
  {
    assert KeysOf(m.project, AllRefs(m)) == {MsgKey(m.project, m.msgid)};
  }

  lemma FirstRefs(m: Mail, s: Step)
    requires s == PatchStep(m, None, None) && StepOk(EMPTY, s) && m.refs == []
    ensures After(EMPTY, s).refs == map[MsgKey(m.project, m.msgid) := 1]
  {
    RefsAfter(EMPTY, s);
    OnlyOwnRef(EMPTY, m, 1);
  }

  lemma StrayMailFinds(db: Tables)
    requires db.refs == map[MsgKey(1, "<a>") := 1] && 1 in db.series && db.series[1].total == 1
    requires db.series[1].date == 10 && db.series[1].version == 1 && db.series[1].project == 1
    ensures Found(WithPatch(db, STRAY_MAIL), PatchQuery(STRAY_MAIL), Some(1))
  {
    var db1, q := WithPatch(db, STRAY_MAIL), PatchQuery(STRAY_MAIL);
    assert RefRows(db1, q) == {MsgKey(1, "<a>")};
    assert PreferredRows(db1, q) == {MsgKey(1, "<a>")};
    assert LatestRef(db1, q, MsgKey(1, "<a>"));
  }
}
