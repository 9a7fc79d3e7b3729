/**
 The tables that mail ingest reads and writes (pkg/db/models.go) and the lookups over them
 (pkg/db/series.go, pkg/db/patch.go).

 A table is a map from its key. Dates are whole seconds, 0 being Go's zero time. A SELECT with
 ORDER BY and LIMIT 1 is a predicate that says which rows it may return: rows that tie in the
 ordering may each be returned.
 */
module Tables {
  import opened Wrappers
  import opened FiniteSets
  import opened Similarity

  const SERIES_DELAY: int := 20 * 60
  const ZERO_TIME: int := 0

  /** A patch's series_id and number, which are always written together. */
  datatype Slot = Slot(series: int, number: int)

  datatype Series = Series(project: int, submitter: int, version: int, total: int, date: int,
                           cover: Option<int>, previous: Option<int>, name: Option<string>)

  datatype Patch = Patch(project: int, msgid: string, submitter: int, date: int, name: string,
                         slot: Option<Slot>)

  datatype Cover = Cover(project: int, msgid: string, submitter: int, date: int, name: string)

  /** The unique key (project_id, msgid) of series_reference. */
  datatype MsgKey = MsgKey(project: int, msgid: string)

  datatype Event =
    | CoverCreated(cover: int)
    | PatchCreated(patch: int)
    | PatchCompleted(patch: int, series: int)
    | SeriesCreated(series: int)
    | SeriesCompleted(series: int)

  datatype Tables = Tables(series: map<int, Series>, refs: map<MsgKey, int>, patches: map<int, Patch>,
                           covers: map<int, Cover>, events: seq<Event>,
                           nextSeries: int, nextPatch: int, nextCover: int)

  // ---------------------------------------------------------------- series membership

  predicate IsMember(db: Tables, p: int, sid: int) {
    p in db.patches && db.patches[p].slot.Some? && db.patches[p].slot.value.series == sid
  }

  function Members(db: Tables, sid: int): set<int> {
    set p | p in db.patches && IsMember(db, p, sid)
  }

  function NumberOf(db: Tables, p: int): int {
    if p in db.patches && db.patches[p].slot.Some? then db.patches[p].slot.value.number else 0
  }

  /** The numbers that are taken in a series. */
  function Slots(db: Tables, sid: int): set<int> {
    set p | p in Members(db, sid) :: NumberOf(db, p)
  }

  ghost predicate InSlot(db: Tables, p: int, sid: int, n: int) {
    p in db.patches && db.patches[p].slot == Some(Slot(sid, n))
  }

  /** unique(series_id, number) on patch. */
  ghost predicate SlotsUnique(db: Tables) {
    forall p, q | p in db.patches && q in db.patches && db.patches[p].slot.Some? ::
      db.patches[p].slot == db.patches[q].slot ==> p == q
  }

  /** The patch in a taken slot. */
  ghost function Occupant(db: Tables, sid: int, n: int): (p: int)
    requires n in Slots(db, sid)
    ensures InSlot(db, p, sid, n)
  {
    SlotHasOccupant(db, sid, n);
    var p :| InSlot(db, p, sid, n);
    p
  }

  lemma SlotHasOccupant(db: Tables, sid: int, n: int)
    ensures n in Slots(db, sid) <==> exists p :: InSlot(db, p, sid, n)
  {
    if n in Slots(db, sid) {
      var p :| p in Members(db, sid) && NumberOf(db, p) == n;
      assert InSlot(db, p, sid, n);
    }
    if exists p :: InSlot(db, p, sid, n) {
      var p :| InSlot(db, p, sid, n);
      assert p in Members(db, sid) && NumberOf(db, p) == n;
    }
  }

  function Predecessors(db: Tables, sid: int, n: int): set<int> {
    set p | p in Members(db, sid) && NumberOf(db, p) < n
  }

  lemma {:induction false} ImageSize(s: set<int>, db: Tables)
    requires forall p, q :: p in s && q in s && NumberOf(db, p) == NumberOf(db, q) ==> p == q
    ensures |set p | p in s :: NumberOf(db, p)| == |s|
  {
    var image := set p | p in s :: NumberOf(db, p);
    if |s| == 0 {
      assert image == {};
    } else {
      var x := Pick(s);
      ImageSize(s - {x}, db);
      assert image == (set p | p in s - {x} :: NumberOf(db, p)) + {NumberOf(db, x)};
    }
  }

  /** Counting rows is counting slots, because no two rows share one. */
  lemma MembersAreSlots(db: Tables, sid: int)
    requires SlotsUnique(db)
    ensures |Members(db, sid)| == |Slots(db, sid)|
    ensures forall n :: |Predecessors(db, sid, n)| == |Below(Slots(db, sid), n)|
  {
    ImageSize(Members(db, sid), db);
    forall n ensures |Predecessors(db, sid, n)| == |Below(Slots(db, sid), n)| {
      ImageSize(Predecessors(db, sid, n), db);
      assert (set p | p in Predecessors(db, sid, n) :: NumberOf(db, p)) == Below(Slots(db, sid), n);
    }
  }

  // ---------------------------------------------------------------- FindSeries

  datatype SeriesQuery = SeriesQuery(project: int, submitter: int, refs: seq<string>, msgid: string,
                                     number: int, version: int, total: int, date: int)

  /** The conditions both tiers share: same project, version and total, free slot, close in time. */
  predicate Fits(db: Tables, q: SeriesQuery, sid: int)
    requires sid in db.series
  {
    var s := db.series[sid];
    && s.project == q.project && s.version == q.version && s.total == q.total
    && (q.number != 0 ==> q.number !in Slots(db, sid))
    && (q.date != ZERO_TIME ==> q.date - SERIES_DELAY <= s.date <= q.date + SERIES_DELAY)
  }

  /** Tier 1: the rows of series joined with series_reference on a message id in refs. */
  function RefRows(db: Tables, q: SeriesQuery): set<MsgKey> {
    set k | k in db.refs && k.msgid in q.refs && db.refs[k] in db.series && Fits(db, q, db.refs[k])
  }

  /** The rows that come first in the ordering on the message's own id. */
  function PreferredRows(db: Tables, q: SeriesQuery): set<MsgKey> {
    var rows := RefRows(db, q);
    var own := set k | k in rows && k.msgid == q.msgid;
    if q.msgid != "" && own != {} then own else rows
  }

  /** Tier 2: series of the same submitter. */
  function MarkerRows(db: Tables, q: SeriesQuery): set<int> {
    set s | s in db.series && db.series[s].submitter == q.submitter && Fits(db, q, s)
  }

  function DateOf(db: Tables, sid: int): int {
    if sid in db.series then db.series[sid].date else 0
  }

  function RefDate(db: Tables, k: MsgKey): int {
    if k in db.refs then DateOf(db, db.refs[k]) else 0
  }

  predicate LatestRef(db: Tables, q: SeriesQuery, k: MsgKey) {
    k in PreferredRows(db, q) &&
    forall k' :: k' in PreferredRows(db, q) ==> RefDate(db, k') <= RefDate(db, k)
  }

  predicate LatestMarker(db: Tables, q: SeriesQuery, s: int) {
    s in MarkerRows(db, q) && forall s' :: s' in MarkerRows(db, q) ==> DateOf(db, s') <= DateOf(db, s)
  }

  /** What FindSeries may return. */
  ghost predicate Found(db: Tables, q: SeriesQuery, r: Option<int>) {
    if RefRows(db, q) != {} then
      r.Some? && exists k :: LatestRef(db, q, k) && db.refs[k] == r.value
    else if MarkerRows(db, q) != {} then
      r.Some? && LatestMarker(db, q, r.value)
    else r.None?
  }

  /** A series that fits and that a reference of the query or its submitter leads to. */
  ghost predicate Eligible(db: Tables, q: SeriesQuery, s: int) {
    && s in db.series && Fits(db, q, s)
    && (db.series[s].submitter == q.submitter ||
        exists k :: k in db.refs && k.msgid in q.refs && db.refs[k] == s)
  }

  /** FindSeries returns a series exactly when one is eligible; what it returns is eligible. */
  lemma FoundMeaning(db: Tables, q: SeriesQuery, r: Option<int>)
    requires Found(db, q, r)
    ensures r.Some? <==> exists s :: Eligible(db, q, s)
    ensures r.Some? ==> Eligible(db, q, r.value)
  {
    if RefRows(db, q) != {} {
      var k :| LatestRef(db, q, k) && db.refs[k] == r.value;
      assert k in RefRows(db, q);
    }
    if r.Some? {
      assert Eligible(db, q, r.value);
    }
    forall s | Eligible(db, q, s) ensures s in MarkerRows(db, q) || RefRows(db, q) != {} {
      if k :| k in db.refs && k.msgid in q.refs && db.refs[k] == s {
        assert k in RefRows(db, q);
      }
    }
  }

  /** There is always a row to return: the choice is never empty. */
  lemma FoundExists(db: Tables, q: SeriesQuery)
    ensures RefRows(db, q) != {} ==> exists k :: LatestRef(db, q, k)
    ensures MarkerRows(db, q) != {} ==> exists s :: LatestMarker(db, q, s)
  {
    if RefRows(db, q) != {} {
      var date: MsgKey -> int := k => RefDate(db, k);
      var k := HasMaximum(PreferredRows(db, q), date);
      assert forall k' :: k' in PreferredRows(db, q) ==> date(k') <= date(k);
      assert LatestRef(db, q, k);
    }
    if MarkerRows(db, q) != {} {
      var date: int -> int := s => DateOf(db, s);
      var s := HasMaximum(MarkerRows(db, q), date);
      assert forall s' :: s' in MarkerRows(db, q) ==> date(s') <= date(s);
      assert LatestMarker(db, q, s);
    }
  }

  // ---------------------------------------------------------------- previous version of a series

  /** The series a reference leads to, if it can be the previous version of sid. */
  predicate RefersToPrevious(db: Tables, project: int, ref: string, sid: int)
    requires sid in db.series
  {
    var k := MsgKey(project, ref);
    && k in db.refs && db.refs[k] in db.series && db.refs[k] != sid
    && db.series[db.refs[k]].submitter == db.series[sid].submitter
    && db.series[db.refs[k]].version == db.series[sid].version - 1
  }

  /** The rows of FindPreviousSeriesByName. */
  function Candidates(db: Tables, project: int, submitter: int, version: int): set<int> {
    set s | s in db.series && db.series[s].project == project && db.series[s].submitter == submitter &&
      db.series[s].version == version
  }

  const THRESHOLD: real := 0.8

  function Score(db: Tables, name: string, c: int): real {
    if c in db.series && db.series[c].name.Some? && StripPrefixes(db.series[c].name.value) != ""
    then NameRatio(StripPrefixes(name), StripPrefixes(db.series[c].name.value))
    else 0.0
  }

  /** The best name match: the highest score of at least 0.8, and the latest among those. */
  ghost predicate BestByName(db: Tables, cs: set<int>, name: string, r: Option<int>) {
    if exists c :: c in cs && Score(db, name, c) >= THRESHOLD then
      r.Some? && r.value in cs && Score(db, name, r.value) >= THRESHOLD &&
      forall c :: c in cs ==>
        Score(db, name, c) < Score(db, name, r.value) ||
        (Score(db, name, c) == Score(db, name, r.value) && DateOf(db, c) <= DateOf(db, r.value))
    else r.None?
  }

  /** Which previous series linkPreviousSeries may pick for sid, under the name it holds in memory. */
  ghost predicate PreviousFor(db: Tables, project: int, refs: seq<string>, sid: int, name: Option<string>,
                              r: Option<int>)
    requires sid in db.series
  {
    if db.series[sid].version <= 1 then r.None?
    else if exists i :: 0 <= i < |refs| && RefersToPrevious(db, project, refs[i], sid) then
      exists i :: 0 <= i < |refs| && RefersToPrevious(db, project, refs[i], sid) &&
        (forall j :: 0 <= j < i ==> !RefersToPrevious(db, project, refs[j], sid)) &&
        r == Some(db.refs[MsgKey(project, refs[i])])
    else if name.None? || StripPrefixes(name.value) == "" then r.None?
    else BestByName(db, Candidates(db, project, db.series[sid].submitter, db.series[sid].version - 1), name.value, r)
  }
}
