/**
 Confluence of ingest: in whatever order the cover and the patches of one thread arrive, however often
 each of them, and whatever unrelated mails come in between, they end up in one series, each patch in
 its slot, with that cover letter and the cover's name.
 */
module Confluence {
  import opened Wrappers
  import opened FiniteSets
  import opened Similarity
  import opened Tables
  import opened Ingest
  import opened SeriesInvariant
  import opened Completion
  import opened StepEffects
  import opened Threads

  /** Mails of the thread, the cover as a cover, and unrelated ones, in any order and number. */
  ghost predicate Interleaves(t: Thread, steps: seq<Step>) {
    forall i :: 0 <= i < |steps| ==> Own(t, steps[i]) || Foreign(t, steps[i])
  }

  /** The mails of the thread among those delivered. */
  ghost function OwnMails(t: Thread, steps: seq<Step>): set<Mail> {
    set s | s in steps && Own(t, s) :: s.mail
  }

  lemma OwnMailsNext(t: Thread, steps: seq<Step>)
    requires steps != []
    ensures var init, s := steps[..|steps| - 1], steps[|steps| - 1];
      OwnMails(t, steps) == OwnMails(t, init) + if Own(t, s) then {s.mail} else {}
  {
    var init, s := steps[..|steps| - 1], steps[|steps| - 1];
    assert forall x :: x in steps <==> x in init || x == s;
  }

  // ---------------------------------------------------------------- the whole run

  /** Nothing but the thread is delivered. */
  ghost predicate NothingElse(t: Thread, steps: seq<Step>) {
    forall i :: 0 <= i < |steps| ==> Own(t, steps[i])
  }

  /** The thread's series is the only new one. */
  ghost predicate OnlyNew(db: Tables, st: Tables, home: Option<int>) {
    if home.None? then st.series.Keys == db.series.Keys && st.nextSeries == db.nextSeries
    else home.value == db.nextSeries && st.series.Keys == db.series.Keys + {home.value}
  }

  /** All numbers of the thread are in 1 to its total. */
  predicate NumbersInRange(t: Thread) {
    forall m :: m in t.patches ==> 1 <= m.number <= m.total
  }

  ghost predicate StaysInRange(t: Thread, st: Tables, s: Step, home: Option<int>) {
    home.Some? && NumbersInRange(t) ==> InRange(st, s, home.value)
  }

  lemma OwnStep(db: Tables, t: Thread, done: set<Mail>, st: Tables, home: Option<int>, s: Step)
    returns (home': Option<int>)
    requires ThreadOk(t) && Underway(t, done, st, home) && Own(t, s) && StepOk(st, s)
    ensures Underway(t, done + {s.mail}, After(st, s), home') && StaysInRange(t, st, s, home')
    ensures OnlyNew(db, st, home) ==> OnlyNew(db, After(st, s), home')
    ensures home' == home || (home.None? && home' == Some(st.nextSeries))
  {
    OwnKeeps(t, done, st, home, s);
    if s.mail in done {
      RepeatedIsDuplicate(t, done, st, home, s);
      home' := home;
    } else {
      NextFinds(t, done, st, home, s);
      StepGoes(st, s);
      home' := Some(Target(st, home));
    }
  }

  lemma ForeignStep(t: Thread, done: set<Mail>, st: Tables, home: Option<int>, s: Step)
    requires ThreadOk(t) && Underway(t, done, st, home) && Foreign(t, s) && StepOk(st, s)
    ensures Underway(t, done, After(st, s), home) && StaysInRange(t, st, s, home)
  {
    ForeignKeeps(t, done, st, home, s);
    if !Duplicate(st, s) {
      ForeignPasses(t, done, st, home, s);
    }
  }

  lemma {:induction false} NotYetReached(db: Tables, steps: seq<Step>, x: int)
    requires Inv(db) && RunOk(db, steps) && x !in AfterRun(db, steps).series
    ensures RunInRange(db, steps, x)
    decreases |steps|
  {
    if steps != [] {
      var init, s := steps[..|steps| - 1], steps[|steps| - 1];
      RunKeepsInvariant(db, init);
      StepKeepsInvariant(AfterRun(db, init), s);
      NotYetReached(db, init, x);
    }
  }

  /**
   Where a run has come: the mails of the thread that have arrived are in one series that was not there
   before; if nothing else arrived, it is the only new one; and its numbers stay in range.
   */
  ghost predicate Reached(db: Tables, t: Thread, steps: seq<Step>, done: set<Mail>, st: Tables, home: Option<int>)
    requires RunOk(db, steps)
  {
    && Underway(t, done, st, home)
    && (home.Some? ==> home.value !in db.series)
    && (NothingElse(t, steps) ==> OnlyNew(db, st, home))
    && (home.Some? && NumbersInRange(t) ==> RunInRange(db, steps, home.value))
  }

  /** The same after one more mail. */
  ghost predicate Reaches(db: Tables, t: Thread, init: seq<Step>, s: Step, done: set<Mail>, st: Tables,
                          home: Option<int>)
    requires RunOk(db, init) && StepOk(AfterRun(db, init), s)
  {
    && Underway(t, done, st, home)
    && (home.Some? ==> home.value !in db.series)
    && (NothingElse(t, init) && Own(t, s) ==> OnlyNew(db, st, home))
    && (home.Some? && NumbersInRange(t) ==> RunInRange(db, init, home.value))
    && StaysInRange(t, AfterRun(db, init), s, home)
  }

  lemma ReachesOwn(db: Tables, t: Thread, init: seq<Step>, done: set<Mail>, st: Tables, home: Option<int>, s: Step)
    returns (home': Option<int>)
    requires ThreadOk(t) && Inv(db) && RunOk(db, init) && st == AfterRun(db, init) && StepOk(st, s) && Own(t, s)
    requires Reached(db, t, init, done, st, home) && st.nextSeries !in db.series
    ensures Reaches(db, t, init, s, done + {s.mail}, After(st, s), home')
  {
    home' := OwnStep(db, t, done, st, home, s);
    if home.None? && home'.Some? {
      NotYetReached(db, init, st.nextSeries);
    }
  }

  lemma ReachesNext(db: Tables, t: Thread, init: seq<Step>, done: set<Mail>, home: Option<int>, s: Step)
    returns (home': Option<int>)
    requires ThreadOk(t) && Inv(db) && RunOk(db, init) && StepOk(AfterRun(db, init), s) && (Own(t, s) || Foreign(t, s))
    requires Reached(db, t, init, done, AfterRun(db, init), home)
    ensures Reaches(db, t, init, s, done + (if Own(t, s) then {s.mail} else {}), After(AfterRun(db, init), s), home')
  {
    var st := AfterRun(db, init);
    RunKeepsInvariant(db, init);
    if Own(t, s) {
      home' := ReachesOwn(db, t, init, done, st, home, s);
    } else {
      home' := home;
      ForeignStep(t, done, st, home, s);
      assert done + {} == done;
    }
  }

  lemma ReachedNext(db: Tables, t: Thread, steps: seq<Step>, done: set<Mail>, st: Tables, home: Option<int>)
    requires RunOk(db, steps) && steps != []
    requires Reaches(db, t, steps[..|steps| - 1], steps[|steps| - 1], done, st, home)
    ensures Reached(db, t, steps, done, st, home)
  {
  }

  lemma {:induction false} Reaching(db: Tables, t: Thread, steps: seq<Step>) returns (home: Option<int>)
    requires ThreadOk(t) && Quiet(db, t) && Interleaves(t, steps) && RunOk(db, steps)
    ensures Reached(db, t, steps, OwnMails(t, steps), AfterRun(db, steps), home)
    decreases |steps|
  {
    if steps == [] {
      home := None;
      QuietIsUnderway(db, t);
      assert OwnMails(t, steps) == {};
    } else {
      var init, s := steps[..|steps| - 1], steps[|steps| - 1];
      var home0 := Reaching(db, t, init);
      home := ReachesNext(db, t, init, OwnMails(t, init), home0, s);
      OwnMailsNext(t, steps);
      ReachedNext(db, t, steps, OwnMails(t, steps), AfterRun(db, steps), home);
    }
  }

  /**
   The series holds exactly the patches of the thread, each in the slot of its number, with that cover as
   its letter and the stripped cover subject as its name.
   */
  ghost predicate AssembledIn(t: Thread, last: Tables, sid: int) {
    && sid in last.series
    && (forall m :: m in t.patches ==> exists p :: p in last.patches && last.patches[p] == PatchRow(m, sid))
    && (forall p :: IsMember(last, p, sid) ==> exists m :: m in t.patches && last.patches[p] == PatchRow(m, sid))
    && last.series[sid].total == t.cover.total
    && last.series[sid].cover.Some? && last.series[sid].cover.value in last.covers
    && last.covers[last.series[sid].cover.value] == CoverRow(t.cover)
    && last.series[sid].name == Some(StripPrefixes(t.cover.subject))
  }

  lemma UnderwayIsAssembled(t: Thread, last: Tables, home: Option<int>)
    requires ThreadOk(t) && Underway(t, MailsOf(t), last, home)
    ensures home.Some? && AssembledIn(t, last, home.value)
  {
    assert t.cover in MailsOf(t);
    HomeMarkers(t, MailsOf(t), last, home.value);
  }

  /** Assembled in a new series, which is the only new one if nothing else was delivered. */
  ghost predicate Assembled(db: Tables, t: Thread, steps: seq<Step>, sid: int)
    requires RunOk(db, steps)
  {
    var last := AfterRun(db, steps);
    && sid !in db.series && AssembledIn(t, last, sid)
    && (NothingElse(t, steps) ==> sid == db.nextSeries && last.series.Keys == db.series.Keys + {sid})
  }

  /**
   In whatever order the mails of a thread arrive, however often each of them, whatever unrelated mails
   come in between and whatever rows the lookups return, the thread is assembled.
   */
  lemma Confluence(db: Tables, t: Thread, steps: seq<Step>) returns (sid: int)
    requires ThreadOk(t) && Quiet(db, t) && Interleaves(t, steps) && RunOk(db, steps)
    requires OwnMails(t, steps) == MailsOf(t)
    ensures Assembled(db, t, steps, sid)
    ensures NumbersInRange(t) ==> RunInRange(db, steps, sid)
  {
    var home := Reaching(db, t, steps);
    UnderwayIsAssembled(t, AfterRun(db, steps), home);
    sid := home.value;
  }

  // ---------------------------------------------------------------- and its events

  /** The patches of the thread are numbered 1 to the total. */
  predicate Complete(t: Thread) {
    Numbers(t) == Interval(1, t.cover.total + 1)
  }

  function Numbers(t: Thread): set<int> {
    set m | m in t.patches :: m.number
  }

  lemma CompleteInRange(t: Thread)
    requires ThreadOk(t) && Complete(t)
    ensures forall m :: m in t.patches ==> 1 <= m.number <= m.total
  {
    forall m | m in t.patches ensures 1 <= m.number <= m.total {
      assert m.number in Numbers(t) && SameSeries(m, t.cover);
    }
  }

  lemma AllSlotsTaken(db: Tables, t: Thread, sid: int)
    requires forall m :: m in t.patches ==> m.number > 0
    requires forall m :: m in t.patches ==> exists p :: p in db.patches && db.patches[p] == PatchRow(m, sid)
    requires forall p :: IsMember(db, p, sid) ==> exists m :: m in t.patches && db.patches[p] == PatchRow(m, sid)
    ensures Slots(db, sid) == Numbers(t)
  {
    forall n | n in Slots(db, sid) ensures n in Numbers(t) {
      var p := Occupant(db, sid, n);
      var m :| m in t.patches && db.patches[p] == PatchRow(m, sid);
    }
    forall m | m in t.patches ensures m.number in Slots(db, sid) {
      var p :| p in db.patches && db.patches[p] == PatchRow(m, sid);
      assert InSlot(db, p, sid, m.number);
      SlotHasOccupant(db, sid, m.number);
    }
  }

  /** A series that is not there yet has no patches and was never announced. */
  lemma NotYetAnnounced(db: Tables, x: int)
    requires Inv(db) && x !in db.series && Told(db, x)
    ensures OnceWhenFull(db, x)
  {
    SlotsPositive(db, x);
  }

  /** What the theorem asks of the tables holds of all tables that mails have led to. */
  lemma AnnouncedAfterAnyRun(earlier: seq<Step>, x: int)
    requires RunOk(EMPTY, earlier)
    ensures var db := AfterRun(EMPTY, earlier);
      Inv(db) && PrefixAnnounced(db, x) && Told(db, x)
  {
    EmptyTablesAreFine(x);
    RunKeepsInvariant(EMPTY, earlier);
    RunAnnouncesPrefixes(EMPTY, earlier, x);
    RunKeepsTold(EMPTY, earlier, x);
  }

  /** Each patch of the series announced once, in ascending order of number, and the series once. */
  ghost predicate AllAnnounced(last: Tables, sid: int, total: int) {
    && |Completed(last.events, sid)| == total && FillInOrder(last, Completed(last.events, sid), sid)
    && Completions(last.events, sid) == 1
  }

  lemma AnnouncedWhenFull(t: Thread, last: Tables, sid: int)
    requires AssembledIn(t, last, sid) && Complete(t) && t.cover.total > 0
    requires OnceWhenFull(last, sid) && PrefixAnnounced(last, sid)
    ensures AllAnnounced(last, sid, t.cover.total)
  {
    assert forall m :: m in t.patches ==> m.number in Numbers(t);
    AllSlotsTaken(last, t, sid);
    RunEndUnique(Slots(last, sid), 0, t.cover.total);
  }

  /**
   Every order of a complete thread announces the same: its patches once each in ascending order of
   number, and the series once.
   */
  lemma EveryOrderAnnouncesTheSame(db: Tables, t: Thread, steps: seq<Step>) returns (sid: int)
    requires ThreadOk(t) && Quiet(db, t) && Interleaves(t, steps) && RunOk(db, steps)
    requires OwnMails(t, steps) == MailsOf(t) && Complete(t) && t.cover.total > 0
    ensures Assembled(db, t, steps, sid)
    ensures PrefixAnnounced(db, sid) && Told(db, sid) ==> AllAnnounced(AfterRun(db, steps), sid, t.cover.total)
  {
    sid := Confluence(db, t, steps);
    CompleteInRange(t);
    if PrefixAnnounced(db, sid) && Told(db, sid) {
      NotYetAnnounced(db, sid);
      RunAnnouncesPrefixes(db, steps, sid);
      SeriesCompletedOnce(db, steps, sid);
      AnnouncedWhenFull(t, AfterRun(db, steps), sid);
    }
  }

  /** Whatever mails came before. */
  lemma EveryOrderAfterAnyRun(earlier: seq<Step>, t: Thread, steps: seq<Step>) returns (sid: int)
    requires RunOk(EMPTY, earlier) && ThreadOk(t) && Quiet(AfterRun(EMPTY, earlier), t)
    requires Interleaves(t, steps) && RunOk(AfterRun(EMPTY, earlier), steps)
    requires OwnMails(t, steps) == MailsOf(t) && Complete(t) && t.cover.total > 0
    ensures Assembled(AfterRun(EMPTY, earlier), t, steps, sid)
    ensures AllAnnounced(AfterRun(AfterRun(EMPTY, earlier), steps), sid, t.cover.total)
  {
    var db := AfterRun(EMPTY, earlier);
    sid := EveryOrderAnnouncesTheSame(db, t, steps);
    AnnouncedAfterAnyRun(earlier, sid);
  }
}
