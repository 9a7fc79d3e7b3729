/**
 The mail parser's database side as the code runs it (pkg/mail/patch.go, cover.go, series.go,
 event.go): fields that are assigned, loops that scan references, successors and candidates.
 Each method is tied to the step functions of Ingest, so every theorem about runs of steps is a
 theorem about the mails that IngestAll takes in.
 */
module Parser {
  import opened Wrappers
  import opened FiniteSets
  import opened Similarity
  import opened Tables
  import opened Ingest
  import opened SeriesInvariant
  import opened Lookups
  import opened Links

  ghost predicate Descending(list: seq<int>, key: int -> int) {
    forall i, j :: 0 <= i < j < |list| ==> key(list[i]) >= key(list[j])
  }

  ghost predicate Distinct(list: seq<int>) {
    forall i, j :: 0 <= i < j < |list| ==> list[i] != list[j]
  }

  ghost predicate NoneLarger(list: seq<int>, rest: set<int>, key: int -> int) {
    forall i, x :: 0 <= i < |list| && x in rest ==> key(list[i]) >= key(x)
  }

  lemma AppendMaximum(list: seq<int>, rest: set<int>, key: int -> int, x: int)
    requires Descending(list, key) && Distinct(list) && NoneLarger(list, rest, key)
    requires IsMaximum(x, rest, key) && x !in list
    ensures Descending(list + [x], key) && Distinct(list + [x]) && NoneLarger(list + [x], rest - {x}, key)
  {
  }

  /** ORDER BY key DESC over a set of rows. */
  method OrderedBy(rows: set<int>, key: int -> int) returns (list: seq<int>)
    ensures forall x :: x in list <==> x in rows
    ensures Descending(list, key) && Distinct(list)
  {
    list := [];
    var rest := rows;
    while rest != {}
      invariant rest <= rows
      invariant forall x :: x in list <==> x in rows && x !in rest
      invariant Descending(list, key) && Distinct(list) && NoneLarger(list, rest, key)
      decreases |rest|
    {
      ghost var largest := HasMaximum(rest, key);
      assert largest in rest && IsMaximum(largest, rest, key);
      var next :| next in rest && IsMaximum(next, rest, key);
      AppendMaximum(list, rest, key, next);
      list := list + [next];
      rest := rest - {next};
    }
  }

  lemma OneMoreRef(db: Tables, project: int, sid: int, ids: seq<string>, i: nat)
    requires i < |ids|
    ensures WithRefs(WithRefs(db, project, sid, ids[..i]), project, sid, [ids[i]]) ==
            WithRefs(db, project, sid, ids[..i + 1])
  {
    assert ids[..i + 1] == ids[..i] + [ids[i]];
    var a := WithRefs(WithRefs(db, project, sid, ids[..i]), project, sid, [ids[i]]).refs;
    var b := WithRefs(db, project, sid, ids[..i + 1]).refs;
    assert KeysOf(project, ids[..i + 1]) == KeysOf(project, ids[..i]) + KeysOf(project, [ids[i]]);
    assert a.Keys == b.Keys;
    assert a == b;
  }

  /** The first id that fits decides. */
  lemma ByFirstReference(db: Tables, m: Mail, sid: int, name: Option<string>, i: nat)
    requires sid in db.series && db.series[sid].version > 1
    requires i < |m.refs| && RefersToPrevious(db, m.project, m.refs[i], sid)
    requires forall j :: 0 <= j < i ==> !RefersToPrevious(db, m.project, m.refs[j], sid)
    ensures
      var r := Some(db.refs[MsgKey(m.project, m.refs[i])]);
      PreviousFor(db, m.project, m.refs, sid, name, r) && ChosenAs(Linked(db, sid, r), m, sid, name, r)
  {
    Chosen(db, m, sid, name, Some(db.refs[MsgKey(m.project, m.refs[i])]));
  }

  /** What the second tier may choose. */
  ghost predicate BestAmong(db: Tables, cs: set<int>, name: Option<string>, best: Option<int>) {
    if name.None? || StripPrefixes(name.value) == "" then best.None? else BestByName(db, cs, name.value, best)
  }

  /** Without such an id the best name decides. */
  lemma ByBestName(db: Tables, m: Mail, sid: int, name: Option<string>, best: Option<int>)
    requires sid in db.series && db.series[sid].version > 1
    requires forall j :: 0 <= j < |m.refs| ==> !RefersToPrevious(db, m.project, m.refs[j], sid)
    requires BestAmong(db, Candidates(db, m.project, db.series[sid].submitter, db.series[sid].version - 1), name, best)
    ensures PreviousFor(db, m.project, m.refs, sid, name, best) && ChosenAs(Linked(db, sid, best), m, sid, name, best)
  {
    Chosen(db, m, sid, name, best);
  }

  class Parser {
    const mail: Mail
    var db: Tables
    /** p.series and the name it carries in memory */
    var series: Option<int>
    var name: Option<string>
    /** p.patch and its number */
    var patch: Option<int>
    var number: Option<int>

    constructor (mail: Mail, db: Tables)
      ensures this.mail == mail && this.db == db
      ensures series.None? && name.None? && patch.None? && number.None?
    {
      this.mail, this.db := mail, db;
      series, name, patch, number := None, None, None, None;
    }

    // -------------------------------------------------------------- queries

    method FindSeries(q: SeriesQuery) returns (r: Option<int>)
      ensures Found(db, q, r) && Ranked(db, q, r)
      ensures r.Some? ==> r.value in db.series
    {
      FoundExists(db, q);
      FoundIsRanked(db, q, None);
      if |q.refs| > 0 && RefRows(db, q) != {} {
        var k :| k in PreferredRows(db, q) && LatestRef(db, q, k);
        FoundIsRanked(db, q, Some(db.refs[k]));
        return Some(db.refs[k]);
      }
      if MarkerRows(db, q) != {} {
        var s :| s in MarkerRows(db, q) && LatestMarker(db, q, s);
        FoundIsRanked(db, q, Some(s));
        return Some(s);
      }
      return None;
    }

    method GetSuccessorPatches(sid: int, n: int) returns (list: seq<int>)
      requires SlotsUnique(db)
      ensures forall p :: p in list <==> IsMember(db, p, sid) && NumberOf(db, p) > n
      ensures forall i, j :: 0 <= i < j < |list| ==> NumberOf(db, list[i]) < NumberOf(db, list[j])
    {
      var rows := set p | p in Members(db, sid) && NumberOf(db, p) > n;
      var tables := db;
      list := OrderedBy(rows, p => -NumberOf(tables, p));
      forall i, j | 0 <= i < j < |list| ensures NumberOf(db, list[i]) < NumberOf(db, list[j]) {
        assert list[i] in rows && list[j] in rows && list[i] != list[j];
        NumbersDiffer(db, sid, list[i], list[j]);
      }
    }

    method FindPreviousSeriesByName(project: int, submitter: int, version: int) returns (list: seq<int>)
      ensures Lists(list, Candidates(db, project, submitter, version))
      ensures LatestFirst(db, list)
    {
      var tables := db;
      list := OrderedBy(Candidates(db, project, submitter, version), s => DateOf(tables, s));
    }

    // -------------------------------------------------------------- updates

    method EnqueueEvent(e: Event)
      modifies `db
      ensures db == old(db).(events := old(db).events + [e])
    {
      db := db.(events := db.events + [e]);
    }

    method CreateSeriesReference(project: int, sid: int, msgid: string)
      modifies `db
      ensures db == WithRefs(old(db), project, sid, [msgid])
    {
      var k := MsgKey(project, msgid);
      if k !in db.refs {
        db := db.(refs := db.refs[k := sid]);
      }
      assert KeysOf(project, [msgid]) == {k};
      assert db.refs == WithRefs(old(db), project, sid, [msgid]).refs;
    }

    method AssignPatchToSeries()
      requires patch.Some? && patch.value in db.patches
      requires series.Some? && series.value in db.series && name == db.series[series.value].name
      modifies `db, `name, `number
      ensures db == AssignedPatch(old(db), mail, patch.value, series.value)
      ensures series.value in db.series && name == db.series[series.value].name
      ensures number == if mail.number <= 0 then old(number) else Some(mail.number)
    {
      if mail.number <= 0 {
        return;
      }
      number := Some(mail.number);
      db := WithSlot(db, patch.value, series.value, mail.number);
      if name.None? && mail.number == 1 {
        name := Some(db.patches[patch.value].name);
        db := Update(db, series.value, db.series[series.value].(name := name));
      }
    }

    /** The loop of assignSeries over the mail's own id and its references. */
    method CreateReferences(sid: int)
      modifies `db
      ensures db == WithRefs(old(db), mail.project, sid, AllRefs(mail))
    {
      ghost var db0 := db;
      var ids := AllRefs(mail);
      var i := 0;
      assert WithRefs(db0, mail.project, sid, ids[..0]).refs == db0.refs;
      while i < |ids|
        invariant 0 <= i <= |ids| && db == WithRefs(db0, mail.project, sid, ids[..i])
      {
        OneMoreRef(db0, mail.project, sid, ids, i);
        CreateSeriesReference(mail.project, sid, ids[i]);
        i := i + 1;
      }
      assert ids[..i] == ids;
    }

    /** A series for this mail, and its series-created event. */
    method CreateSeries()
      modifies `db, `series
      ensures db == WithSeries(old(db), mail) && series == Some(old(db).nextSeries)
    {
      series := Some(db.nextSeries);
      db := db.(series := db.series[db.nextSeries := Series(mail.project, mail.author, mail.version, mail.total,
                  mail.date, None, None, None)], nextSeries := db.nextSeries + 1);
      EnqueueEvent(SeriesCreated(series.value));
    }

    method AssignSeries() returns (ghost found: Option<int>)
      requires patch.Some? && patch.value in db.patches
      modifies `db, `series, `name, `number
      ensures Found(old(db), PatchQuery(mail), found)
      ensures found.Some? ==> found.value in old(db).series
      ensures db == AssignedSeries(old(db), mail, patch.value, found)
      ensures series == Some(Target(old(db), found)) && series.value in db.series
      ensures name == db.series[series.value].name
      ensures number == if mail.number <= 0 then old(number) else Some(mail.number)
    {
      var r := FindSeries(PatchQuery(mail));
      found := r;
      if r.None? {
        CreateSeries();
      } else {
        series := r;
      }
      name := db.series[series.value].name;
      CreateReferences(series.value);
      AssignPatchToSeries();
    }

    method CreatePatchCompletedEvent()
      requires SlotsUnique(db) && series.Some? && patch.Some?
      requires number.Some? && number.value > 0 ==> InSlot(db, patch.value, series.value, number.value)
      modifies `db
      ensures number.None? || number.value <= 0 ==> db == old(db)
      ensures number.Some? && number.value > 0 ==>
        number.value in Slots(old(db), series.value) &&
        db == old(db).(events := old(db).events + PatchCompletedEvents(old(db), series.value, number.value))
    {
      if number.None? || number.value <= 0 {
        return;
      }
      var n, sid := number.value, series.value;
      SlotHasOccupant(db, sid, n);
      var predCount := |Predecessors(db, sid, n)|;
      if predCount != n - 1 {
        return;
      }
      FirstOfRun(db, sid, n, patch.value);
      EnqueueEvent(PatchCompleted(patch.value, sid));
      AnnounceSuccessors(sid, n);
    }

    /** The loop of createPatchCompletedEvent over the patches behind number n. */
    method AnnounceSuccessors(sid: int, n: int)
      requires SlotsUnique(db) && n in Slots(db, sid)
      modifies `db
      ensures db == old(db).(events := old(db).events + CompletedRun(old(db), sid, n)[1..])
    {
      ghost var tables, run, slots := db, CompletedRun(db, sid, n), Slots(db, sid);
      var successors := GetSuccessorPatches(sid, n);
      var count := n + 1;
      var i := 0;
      while i < |successors|
        invariant 0 <= i <= |successors| && count == n + 1 + i && i < |run|
        invariant forall k :: 0 <= k < i ==> NumberOf(tables, successors[k]) == n + 1 + k
        invariant forall x :: n < x < count ==> x in slots
        invariant db == tables.(events := tables.events + run[1..i + 1])
      {
        var s := successors[i];
        if NumberOf(db, s) != count {
          break;
        }
        NextOccupant(tables, sid, n, i, successors);
        EnqueueEvent(PatchCompleted(s, sid));
        OneMoreEvent(tables.events, run, i);
        count := count + 1;
        i := i + 1;
      }
      GapEndsRun(tables, sid, n, successors, i);
      assert run[1..i + 1] == run[1..];
    }

    method CreateSeriesCompletedEvent()
      requires series.Some? && series.value in db.series
      modifies `db
      ensures db == old(db).(events := old(db).events + SeriesCompletedEvents(old(db), series.value))
    {
      if db.series[series.value].total <= 0 {
        return;
      }
      var count := |Members(db, series.value)|;
      if count < db.series[series.value].total {
        return;
      }
      EnqueueEvent(SeriesCompleted(series.value));
    }

    method LinkPreviousSeries() returns (ghost previous: Option<int>)
      requires series.Some? && series.value in db.series
      modifies `db
      ensures PreviousFor(old(db), mail.project, mail.refs, series.value, name, previous)
      ensures db == Linked(old(db), series.value, previous)
      ensures db.series[series.value].version > 1 ==> ChosenAs(db, mail, series.value, name, previous)
    {
      var sid := series.value;
      var row := db.series[sid];
      if row.version <= 1 {
        return None;
      }
      ghost var tables := db;
      var i := 0;
      while i < |mail.refs|
        invariant 0 <= i <= |mail.refs| && db == tables
        invariant forall j :: 0 <= j < i ==> !RefersToPrevious(db, mail.project, mail.refs[j], sid)
      {
        if RefersToPrevious(db, mail.project, mail.refs[i], sid) {
          var prev := db.refs[MsgKey(mail.project, mail.refs[i])];
          ByFirstReference(tables, mail, sid, name, i);
          db := Update(db, sid, row.(previous := Some(prev)));
          return Some(prev);
        }
        i := i + 1;
      }
      var best := BestCandidate(row.submitter, row.version - 1);
      previous := best;
      ByBestName(tables, mail, sid, name, best);
      if best.Some? {
        db := Update(db, sid, row.(previous := best));
      }
    }

    /** A candidate without a name, or whose name strips to nothing, is skipped: it scores nothing. */
    method CandidateScore(c: int) returns (score: real)
      requires c in db.series && name.Some?
      ensures score == Score(db, name.value, c)
    {
      if db.series[c].name.None? {
        return 0.0;
      }
      var candName := StripPrefixes(db.series[c].name.value);
      if candName == "" {
        return 0.0;
      }
      score := NameSimilarity(StripPrefixes(name.value), candName);
    }

    /** The second tier of linkPreviousSeries. */
    method BestCandidate(submitter: int, version: int) returns (best: Option<int>)
      ensures BestAmong(db, Candidates(db, mail.project, submitter, version), name, best)
    {
      var candidates := FindPreviousSeriesByName(mail.project, submitter, version);
      best := None;
      if name.None? {
        return;
      }
      if StripPrefixes(name.value) == "" {
        return;
      }
      ghost var bestScore: real;
      best, bestScore := BestOf(candidates);
      BestOfAll(db, Candidates(db, mail.project, submitter, version), candidates, name.value, best, bestScore);
    }

    /** The loop over the candidates: the first one with the highest score of at least 0.8. */
    method BestOf(candidates: seq<int>) returns (best: Option<int>, bestScore: real)
      requires name.Some? && LatestFirst(db, candidates)
      requires forall c :: c in candidates ==> c in db.series
      ensures BestSoFar(db, candidates, name.value, best, bestScore)
    {
      best, bestScore := None, 0.0;
      var i := 0;
      while i < |candidates|
        invariant 0 <= i <= |candidates|
        invariant BestSoFar(db, candidates[..i], name.value, best, bestScore)
      {
        var c := candidates[i];
        assert c in candidates;
        BestOfNext(db, candidates, i, name.value, best, bestScore);
        var score := CandidateScore(c);
        if score >= THRESHOLD && score > bestScore {
          best, bestScore := Some(c), score;
        }
        i := i + 1;
      }
      assert candidates[..i] == candidates;
    }

    // -------------------------------------------------------------- mails

    /** The patch itself, and its patch-created event. */
    method StorePatchRow()
      modifies `db, `patch
      ensures db == WithPatch(old(db), mail) && patch == Some(old(db).nextPatch)
    {
      patch := Some(db.nextPatch);
      var row := Patch(mail.project, mail.msgid, mail.author, mail.date, mail.subject, None);
      db := db.(patches := db.patches[db.nextPatch := row],
                nextPatch := db.nextPatch + 1);
      EnqueueEvent(PatchCreated(patch.value));
    }

    method CreateCompletionEvents()
      requires SlotsUnique(db) && series.Some? && patch.Some? && series.value in db.series
      requires number.Some? && number.value > 0 ==> InSlot(db, patch.value, series.value, number.value)
      modifies `db
      ensures var n := if number.Some? then number.value else 0;
        (n > 0 ==> n in Slots(old(db), series.value)) && db == WithCompletions(old(db), series.value, n)
    {
      ghost var db0 := db;
      CreatePatchCompletedEvent();
      ghost var n := if number.Some? then number.value else 0;
      assert n <= 0 ==> db0 == db0.(events := db0.events + PatchCompletedEvents(db0, series.value, n));
      CreateSeriesCompletedEvent();
      CompletionsTogether(db0, series.value, n);
    }

    /** handlePatch up to the completion events. */
    method StorePatch() returns (ghost s: Step)
      requires Inv(db) && mail.date != ZERO_TIME && mail.number >= 0 && mail.total >= 0 && mail.version >= 0
      requires series.None? && number.None?
      modifies this
      ensures s.PatchStep? && s.mail == mail && Dispatched(s) && Located(old(db), s)
      ensures db == PatchCompletedTables(old(db), s)
      ensures series == Some(Target(old(db), s.found)) && series.value in db.series
      ensures name == db.series[series.value].name
    {
      ghost var db0 := db;
      StorePatchRow();
      ghost var found := AssignSeries();
      s := PatchStep(mail, found, None);
      FoundWasThere(db0, s);
      assert db == PatchAssigned(db0, s);
      KeepPatchAssigned(db0, s);
      SlotOfAssigned(db0, s);
      CreateCompletionEvents();
    }

    method HandlePatch() returns (duplicate: bool, ghost s: Step)
      requires Inv(db) && mail.date != ZERO_TIME && mail.number >= 0 && mail.total >= 0 && mail.version >= 0
      requires series.None? && number.None?
      modifies this
      ensures s.PatchStep? && s.mail == mail && StepOk(old(db), s)
      ensures duplicate == Duplicate(old(db), s)
      ensures db == After(old(db), s)
    {
      s := PatchStep(mail, None, None);
      if exists p :: p in db.patches && db.patches[p].msgid == mail.msgid && db.patches[p].project == mail.project {
        return true, s;
      }
      duplicate := false;
      s := StorePatch();
      ghost var previous := None;
      if mail.version > 1 {
        previous := LinkPreviousSeries();
      }
      s := Relinked(old(db), s, previous);
    }

    /** handleCoverLetter up to the link. */
    method StoreCover() returns (ghost s: Step)
      requires Inv(db) && mail.date != ZERO_TIME && mail.number == 0 && mail.total > 0 && mail.version >= 0
      requires series.None? && number.None?
      modifies this
      ensures s.CoverStep? && s.mail == mail && Dispatched(s) && Located(old(db), s)
      ensures db == Unlinked(old(db), s)
      ensures series == Some(Target(old(db), s.found)) && series.value in db.series
      ensures name == NameInMemory(old(db), s)
    {
      ghost var db0 := db;
      var cover := db.nextCover;
      db := db.(covers := db.covers[cover := Cover(mail.project, mail.msgid, mail.author, mail.date, mail.subject)],
                nextCover := cover + 1);
      EnqueueEvent(CoverCreated(cover));
      assert db == WithCover(db0, mail);
      var found := FindSeries(CoverQuery(mail));
      s := CoverStep(mail, found, None);
      if found.None? {
        series := Some(db.nextSeries);
        db := db.(series := db.series[db.nextSeries := Series(mail.project, mail.author, mail.version, mail.total,
                    mail.date, None, None, None)], nextSeries := db.nextSeries + 1);
        CreateSeriesReference(mail.project, series.value, mail.msgid);
        EnqueueEvent(SeriesCreated(series.value));
      } else {
        series := found;
      }
      var sid := series.value;
      name := db.series[sid].name;
      db := Update(db, sid, db.series[sid].(cover := Some(cover)));
      assert db == CoverResolved(db0, s);
      RenameFromCover();
    }

    method RenameFromCover()
      requires SlotsUnique(db) && series.Some? && series.value in db.series && name == db.series[series.value].name
      modifies `db
      ensures db == CoverNamed(old(db), series.value, mail.subject)
    {
      var sid := series.value;
      var coverName := StripPrefixes(mail.subject);
      if name.None? {
        db := Update(db, sid, db.series[sid].(name := Some(coverName)));
      } else if 1 in Slots(db, sid) {
        ghost var p := Occupant(db, sid, 1);
        assert p in Members(db, sid) && NumberOf(db, p) == 1;
        var first :| first in Members(db, sid) && NumberOf(db, first) == 1;
        OccupantIs(db, sid, 1, first);
        if name.value == db.patches[first].name {
          db := Update(db, sid, db.series[sid].(name := Some(coverName)));
        }
      }
    }

    method HandleCoverLetter() returns (duplicate: bool, ghost s: Step)
      requires Inv(db) && mail.date != ZERO_TIME && mail.number == 0 && mail.total > 0 && mail.version >= 0
      requires series.None? && number.None?
      modifies this
      ensures s.CoverStep? && s.mail == mail && StepOk(old(db), s)
      ensures duplicate == Duplicate(old(db), s)
      ensures db == After(old(db), s)
    {
      s := CoverStep(mail, None, None);
      if exists c :: c in db.covers && db.covers[c].msgid == mail.msgid && db.covers[c].project == mail.project {
        return true, s;
      }
      duplicate := false;
      s := StoreCover();
      ghost var previous := None;
      if mail.version > 1 {
        previous := LinkPreviousSeries();
      }
      s := Relinked(old(db), s, previous);
    }
  }

  function WithPrevious(s: Step, previous: Option<int>): Step {
    if s.PatchStep? then PatchStep(s.mail, s.found, previous) else CoverStep(s.mail, s.found, previous)
  }

  /** The part of a step before the link does not depend on the link. */
  lemma UnlinkedSame(db: Tables, s: Step, previous: Option<int>)
    requires Located(db, s)
    ensures Unlinked(db, WithPrevious(s, previous)) == Unlinked(db, s)
    ensures NameInMemory(db, WithPrevious(s, previous)) == NameInMemory(db, s)
  {
  }

  lemma Relinked(db: Tables, s: Step, previous: Option<int>) returns (t: Step)
    requires Dispatched(s) && Located(db, s) && !Duplicate(db, s)
    requires if s.mail.version > 1
      then PreviousFor(Unlinked(db, s), s.mail.project, s.mail.refs, Target(db, s.found), NameInMemory(db, s), previous)
      else previous.None?
    ensures t == WithPrevious(s, previous) && StepOk(db, t)
    ensures !Duplicate(db, t) && After(db, t) == Linked(Unlinked(db, s), Target(db, s.found), previous)
  {
    t := WithPrevious(s, previous);
    UnlinkedSame(db, s, previous);
  }

  lemma FoundWasThere(db: Tables, s: Step)
    requires s.PatchStep? && Found(WithPatch(db, s.mail), PatchQuery(s.mail), s.found)
    ensures s.found.Some? ==> s.found.value in db.series
  {
    FoundMeaning(WithPatch(db, s.mail), PatchQuery(s.mail), s.found);
  }

  lemma CompletionsTogether(db: Tables, sid: int, n: int)
    requires sid in db.series && (n > 0 ==> n in Slots(db, sid))
    ensures var db1 := db.(events := db.events + PatchCompletedEvents(db, sid, n));
      db1.(events := db1.events + SeriesCompletedEvents(db1, sid)) == WithCompletions(db, sid, n)
  {
    SameSlotsAnywhere(db, db.(events := db.events + PatchCompletedEvents(db, sid, n)), sid);
  }

  lemma NumbersDiffer(db: Tables, sid: int, p: int, q: int)
    requires SlotsUnique(db) && IsMember(db, p, sid) && IsMember(db, q, sid) && p != q
    ensures NumberOf(db, p) != NumberOf(db, q)
  {
    assert db.patches[p].slot == db.patches[q].slot ==> p == q;
  }

  lemma SameRun(db: Tables, db': Tables, sid: int, n: int)
    requires db'.patches == db.patches && SlotsUnique(db) && n in Slots(db, sid) && n in Slots(db', sid)
    ensures CompletedRun(db', sid, n) == CompletedRun(db, sid, n)
  {
    SameSlotsAnywhere(db, db', sid);
    forall x | x in Slots(db, sid) ensures Occupant(db', sid, x) == Occupant(db, sid, x) {
      OccupantIs(db, sid, x, Occupant(db', sid, x));
    }
  }

  /** The first event of the run, and the same run behind it once it has been emitted. */
  lemma FirstOfRun(db: Tables, sid: int, n: int, p: int)
    requires SlotsUnique(db) && InSlot(db, p, sid, n)
    ensures var e := PatchCompleted(p, sid);
      var db1 := db.(events := db.events + [e]);
      && SlotsUnique(db1) && n in Slots(db1, sid) && n in Slots(db, sid)
      && CompletedRun(db, sid, n) == [e] + CompletedRun(db1, sid, n)[1..]
  {
    var e := PatchCompleted(p, sid);
    var db1 := db.(events := db.events + [e]);
    OccupantIs(db, sid, n, p);
    SameSlotsAnywhere(db, db1, sid);
    SameRun(db, db1, sid, n);
    assert CompletedRun(db, sid, n)[0] == e;
  }

  lemma SameSlotsAnywhere(db: Tables, db': Tables, sid: int)
    requires db'.patches == db.patches
    ensures Members(db', sid) == Members(db, sid) && Slots(db', sid) == Slots(db, sid)
    ensures SlotsUnique(db) ==> SlotsUnique(db')
  {
    SlotsUnchanged(db, db', sid);
  }

  ghost predicate Lists(list: seq<int>, rows: set<int>) {
    forall x :: x in list <==> x in rows
  }

  ghost predicate LatestFirst(db: Tables, list: seq<int>) {
    forall i, j :: 0 <= i < j < |list| ==> DateOf(db, list[i]) >= DateOf(db, list[j])
  }

  /** The candidate does not displace the best one: it scores less, or it comes later in the list. */
  ghost predicate Yields(db: Tables, name: string, c: int, best: Option<int>, bestScore: real) {
    if best.None? then Score(db, name, c) < THRESHOLD
    else
      Score(db, name, c) < bestScore || (Score(db, name, c) == bestScore && DateOf(db, c) <= DateOf(db, best.value))
  }

  /** The running maximum of linkPreviousSeries. */
  ghost predicate BestSoFar(db: Tables, list: seq<int>, name: string, best: Option<int>, bestScore: real) {
    && (if best.None? then bestScore == 0.0
        else best.value in list && bestScore == Score(db, name, best.value) >= THRESHOLD)
    && (forall k :: 0 <= k < |list| ==> Yields(db, name, list[k], best, bestScore))
  }

  /** The candidate at i neither beats the best so far nor is later with the same score. */
  lemma BestStays(db: Tables, list: seq<int>, i: nat, name: string, best: Option<int>, bestScore: real)
    requires i < |list| && BestSoFar(db, list[..i], name, best, bestScore) && LatestFirst(db, list)
    requires var score := Score(db, name, list[i]); score < THRESHOLD || score <= bestScore
    ensures BestSoFar(db, list[..i + 1], name, best, bestScore)
  {
    assert list[..i + 1] == list[..i] + [list[i]];
    if best.Some? {
      var j :| 0 <= j < i && list[..i][j] == best.value;
      assert DateOf(db, list[j]) >= DateOf(db, list[i]);
    }
    assert Yields(db, name, list[i], best, bestScore);
  }

  lemma BestChanges(db: Tables, list: seq<int>, i: nat, name: string, best: Option<int>, bestScore: real)
    requires i < |list| && BestSoFar(db, list[..i], name, best, bestScore)
    requires var score := Score(db, name, list[i]); score >= THRESHOLD && score > bestScore
    ensures BestSoFar(db, list[..i + 1], name, Some(list[i]), Score(db, name, list[i]))
  {
    var now, score := Some(list[i]), Score(db, name, list[i]);
    assert list[i] in list[..i + 1];
    forall k | 0 <= k < i + 1 ensures Yields(db, name, list[k], now, score) {
      if k < i {
        assert list[..i][k] == list[k];
      }
    }
  }

  lemma BestOfNext(db: Tables, list: seq<int>, i: nat, name: string, best: Option<int>, bestScore: real)
    requires i < |list| && BestSoFar(db, list[..i], name, best, bestScore)
    requires LatestFirst(db, list)
    ensures var score := Score(db, name, list[i]);
      if score >= THRESHOLD && score > bestScore
      then BestSoFar(db, list[..i + 1], name, Some(list[i]), score)
      else BestSoFar(db, list[..i + 1], name, best, bestScore)
  {
    var score := Score(db, name, list[i]);
    if score >= THRESHOLD && score > bestScore {
      BestChanges(db, list, i, name, best, bestScore);
    } else {
      BestStays(db, list, i, name, best, bestScore);
    }
  }

  lemma BestOfAll(db: Tables, cs: set<int>, list: seq<int>, name: string, best: Option<int>, bestScore: real)
    requires Lists(list, cs)
    requires BestSoFar(db, list, name, best, bestScore)
    ensures BestByName(db, cs, name, best)
  {
    forall c | c in cs ensures exists k :: 0 <= k < |list| && list[k] == c {
      assert c in list;
    }
  }

  lemma OccupantIs(db: Tables, sid: int, n: int, p: int)
    requires SlotsUnique(db) && InSlot(db, p, sid, n)
    ensures n in Slots(db, sid) && Occupant(db, sid, n) == p
  {
    SlotHasOccupant(db, sid, n);
    assert InSlot(db, Occupant(db, sid, n), sid, n);
  }

  lemma OneMoreEvent(events: seq<Event>, run: seq<Event>, i: nat)
    requires i + 1 < |run|
    ensures events + run[1..i + 1] + [run[i + 1]] == events + run[1..i + 2]
  {
    assert run[1..i + 2] == run[1..i + 1] + [run[i + 1]];
  }

  /** The next patch of the run sits in the next slot. */
  lemma NextOccupant(db: Tables, sid: int, n: int, i: nat, list: seq<int>)
    requires SlotsUnique(db) && n in Slots(db, sid) && i < |list|
    requires forall p :: p in list <==> IsMember(db, p, sid) && NumberOf(db, p) > n
    requires NumberOf(db, list[i]) == n + 1 + i
    requires forall x :: n < x < n + 1 + i ==> x in Slots(db, sid)
    ensures n + 1 + i in Slots(db, sid)
    ensures i + 1 < |CompletedRun(db, sid, n)| && CompletedRun(db, sid, n)[i + 1] == PatchCompleted(list[i], sid)
  {
    assert list[i] in list;
    OccupantIs(db, sid, n + (i + 1), list[i]);
    var last := RunEnd(Slots(db, sid), n);
    assert last + 1 !in Slots(db, sid);
  }

  lemma NoSuccessorInGap(db: Tables, n: int, list: seq<int>, i: nat, j: nat)
    requires i <= |list| && j < |list|
    requires forall p :: p in list ==> NumberOf(db, p) > n
    requires forall j, k :: 0 <= j < k < |list| ==> NumberOf(db, list[j]) < NumberOf(db, list[k])
    requires forall k :: 0 <= k < i ==> NumberOf(db, list[k]) == n + 1 + k
    requires i < |list| ==> NumberOf(db, list[i]) != n + 1 + i
    ensures NumberOf(db, list[j]) != n + 1 + i
  {
    if i < |list| {
      assert list[i] in list;
      assert i > 0 ==> NumberOf(db, list[i - 1]) < NumberOf(db, list[i]);
    }
  }

  /** Where the successors leave a gap, or run out, the run of filled slots ends. */
  lemma GapEndsRun(db: Tables, sid: int, n: int, list: seq<int>, i: nat)
    requires SlotsUnique(db) && n in Slots(db, sid) && i <= |list|
    requires forall p :: p in list <==> IsMember(db, p, sid) && NumberOf(db, p) > n
    requires forall j, k :: 0 <= j < k < |list| ==> NumberOf(db, list[j]) < NumberOf(db, list[k])
    requires forall k :: 0 <= k < i ==> NumberOf(db, list[k]) == n + 1 + k
    requires i < |list| ==> NumberOf(db, list[i]) != n + 1 + i
    requires forall x :: n < x < n + 1 + i ==> x in Slots(db, sid)
    ensures RunEnd(Slots(db, sid), n) == n + i
    ensures |CompletedRun(db, sid, n)| == i + 1
  {
    var gap := n + 1 + i;
    forall p ensures !InSlot(db, p, sid, gap) {
      if p in list {
        var j :| 0 <= j < |list| && list[j] == p;
        NoSuccessorInGap(db, n, list, i, j);
      } else {
        assert !(IsMember(db, p, sid) && NumberOf(db, p) > n);
      }
    }
    SlotHasOccupant(db, sid, gap);
    RunEndUnique(Slots(db, sid), n, n + i);
  }

  /** A mail and whether it is dispatched as a cover letter. */
  datatype Arrival = Arrival(mail: Mail, isCover: bool)

  predicate CanArrive(a: Arrival) {
    && a.mail.number >= 0 && a.mail.total >= 0 && a.mail.version >= 0 && a.mail.date != ZERO_TIME
    && (a.isCover ==> a.mail.number == 0 && a.mail.total > 0)
  }

  ghost predicate StepsFor(steps: seq<Step>, arrivals: seq<Arrival>) {
    && |steps| == |arrivals|
    && forall i :: 0 <= i < |steps| ==> steps[i].mail == arrivals[i].mail && steps[i].CoverStep? == arrivals[i].isCover
  }

  /** The tables are those after the steps, and sound. */
  ghost predicate Ingested(start: Tables, steps: seq<Step>, db: Tables) {
    RunOk(start, steps) && db == AfterRun(start, steps) && Inv(db)
  }

  lemma NothingIngested(start: Tables)
    requires Inv(start)
    ensures Ingested(start, [], start)
  {
  }

  lemma IngestedNext(start: Tables, steps: seq<Step>, db: Tables, s: Step)
    requires Ingested(start, steps, db) && StepOk(db, s)
    ensures Ingested(start, steps + [s], After(db, s))
  {
    StepKeepsInvariant(db, s);
    OneMoreStep(start, steps, s);
  }

  lemma StepsForNext(steps: seq<Step>, arrivals: seq<Arrival>, i: nat, s: Step)
    requires i < |arrivals| && StepsFor(steps, arrivals[..i])
    requires s.mail == arrivals[i].mail && s.CoverStep? == arrivals[i].isCover
    ensures StepsFor(steps + [s], arrivals[..i + 1])
  {
  }

  /** One mail, with a parser of its own. */
  method IngestOne(db0: Tables, a: Arrival) returns (db: Tables, ghost s: Step)
    requires Inv(db0) && CanArrive(a)
    ensures s.mail == a.mail && s.CoverStep? == a.isCover
    ensures StepOk(db0, s) && db == After(db0, s)
  {
    var parser := new Parser(a.mail, db0);
    var duplicate: bool;
    if a.isCover {
      duplicate, s := parser.HandleCoverLetter();
    } else {
      duplicate, s := parser.HandlePatch();
    }
    db := parser.db;
  }

  /** Mails are ingested one after the other: the result is a run. */
  method IngestAll(start: Tables, arrivals: seq<Arrival>) returns (db: Tables, ghost steps: seq<Step>)
    requires Inv(start) && forall a :: a in arrivals ==> CanArrive(a)
    ensures Ingested(start, steps, db) && StepsFor(steps, arrivals)
  {
    db, steps := start, [];
    NothingIngested(start);
    var i := 0;
    while i < |arrivals|
      invariant 0 <= i <= |arrivals|
      invariant Ingested(start, steps, db) && StepsFor(steps, arrivals[..i])
    {
      ghost var s: Step;
      ghost var before := db;
      db, s := IngestOne(db, arrivals[i]);
      IngestedNext(start, steps, before, s);
      StepsForNext(steps, arrivals, i, s);
      steps := steps + [s];
      i := i + 1;
    }
    assert arrivals[..i] == arrivals;
  }
}
