/**
 Which series a mail goes to, told from the rows alone: the query of FindSeries takes the latest series
 of the first tier that has one, the mail's own id before other references.
 */
module Lookups {
  import opened Wrappers
  import opened Tables
  import opened Ingest
  import opened SeriesInvariant

  // ---------------------------------------------------------------- the ranking

  /** Same project, version and total, at most 20 minutes away, and no patch with that number yet. */
  ghost predicate CanTake(db: Tables, q: SeriesQuery, x: int) {
    && x in db.series
    && db.series[x].project == q.project && db.series[x].version == q.version && db.series[x].total == q.total
    && (q.number == 0 || forall p :: p in db.patches ==> db.patches[p].slot != Some(Slot(x, q.number)))
    && (q.date == 0 || -1200 <= db.series[x].date - q.date <= 1200)
  }

  /** A reference with one of the ids leads to the series. */
  ghost predicate LedToBy(db: Tables, ids: seq<string>, x: int) {
    exists k :: k in db.refs && k.msgid in ids && db.refs[k] == x
  }

  ghost predicate ByOwnId(db: Tables, q: SeriesQuery, x: int) {
    CanTake(db, q, x) && q.msgid != "" && q.msgid in q.refs && LedToBy(db, [q.msgid], x)
  }

  ghost predicate ByReference(db: Tables, q: SeriesQuery, x: int) {
    CanTake(db, q, x) && LedToBy(db, q.refs, x)
  }

  ghost predicate ByAuthor(db: Tables, q: SeriesQuery, x: int) {
    CanTake(db, q, x) && db.series[x].submitter == q.submitter
  }

  /** A series led to by the mail's own id, else by another reference, else of the same author; the latest. */
  ghost predicate Ranked(db: Tables, q: SeriesQuery, r: Option<int>) {
    if exists x :: ByOwnId(db, q, x) then
      && r.Some? && ByOwnId(db, q, r.value)
      && forall y :: ByOwnId(db, q, y) ==> db.series[y].date <= db.series[r.value].date
    else if exists x :: ByReference(db, q, x) then
      && r.Some? && ByReference(db, q, r.value)
      && forall y :: ByReference(db, q, y) ==> db.series[y].date <= db.series[r.value].date
    else if exists x :: ByAuthor(db, q, x) then
      && r.Some? && ByAuthor(db, q, r.value)
      && forall y :: ByAuthor(db, q, y) ==> db.series[y].date <= db.series[r.value].date
    else r.None?
  }

  // ---------------------------------------------------------------- what the query returns

  lemma FitsMeaning(db: Tables, q: SeriesQuery, x: int)
    requires x in db.series
    ensures Fits(db, q, x) <==> CanTake(db, q, x)
  {
    SlotHasOccupant(db, x, q.number);
    if q.number in Slots(db, x) {
      var p := Occupant(db, x, q.number);
      assert p in db.patches && db.patches[p].slot == Some(Slot(x, q.number));
    }
    assert forall p :: p in db.patches && db.patches[p].slot == Some(Slot(x, q.number)) ==> InSlot(db, p, x, q.number);
  }

  lemma RefRowsMeaning(db: Tables, q: SeriesQuery)
    ensures forall k :: k in RefRows(db, q) <==> k in db.refs && k.msgid in q.refs && CanTake(db, q, db.refs[k])
  {
    forall k | k in db.refs && db.refs[k] in db.series ensures Fits(db, q, db.refs[k]) <==> CanTake(db, q, db.refs[k]) {
      FitsMeaning(db, q, db.refs[k]);
    }
  }

  lemma MarkerRowsMeaning(db: Tables, q: SeriesQuery)
    ensures forall x :: x in MarkerRows(db, q) <==> ByAuthor(db, q, x)
  {
    forall x | x in db.series ensures Fits(db, q, x) <==> CanTake(db, q, x) {
      FitsMeaning(db, q, x);
    }
  }

  lemma ReferredRows(db: Tables, q: SeriesQuery)
    ensures forall x :: ByReference(db, q, x) <==> exists k :: k in RefRows(db, q) && db.refs[k] == x
    ensures forall x :: ByOwnId(db, q, x) <==>
      q.msgid != "" && exists k :: k in RefRows(db, q) && k.msgid == q.msgid && db.refs[k] == x
  {
    RefRowsMeaning(db, q);
    forall x | ByOwnId(db, q, x) ensures exists k :: k in RefRows(db, q) && k.msgid == q.msgid && db.refs[k] == x {
      var k :| k in db.refs && k.msgid in [q.msgid] && db.refs[k] == x;
      assert k in RefRows(db, q);
    }
    forall k | k in RefRows(db, q) && k.msgid == q.msgid && q.msgid != "" ensures ByOwnId(db, q, db.refs[k]) {
      assert k.msgid in [q.msgid];
    }
  }

  /** The rows that come first: those of the mail's own id if there are any, and all otherwise. */
  lemma PreferredMeaning(db: Tables, q: SeriesQuery)
    ensures
      var own := exists x :: ByOwnId(db, q, x);
      forall k :: k in PreferredRows(db, q) <==> k in RefRows(db, q) && (own ==> k.msgid == q.msgid)
  {
    ReferredRows(db, q);
    var rows := RefRows(db, q);
    var own := set k | k in rows && k.msgid == q.msgid;
    assert forall k :: k in rows && k.msgid == q.msgid ==> k in own;
    if q.msgid != "" && own != {} {
      var k :| k in own;
      assert ByOwnId(db, q, db.refs[k]);
    }
  }

  lemma EmptyRows(db: Tables, q: SeriesQuery)
    ensures RefRows(db, q) != {} <==> exists x :: ByReference(db, q, x)
    ensures MarkerRows(db, q) != {} <==> exists x :: ByAuthor(db, q, x)
    ensures (exists x :: ByOwnId(db, q, x)) ==> exists x :: ByReference(db, q, x)
  {
    ReferredRows(db, q);
    MarkerRowsMeaning(db, q);
    if RefRows(db, q) != {} {
      var k :| k in RefRows(db, q);
      assert ByReference(db, q, db.refs[k]);
    }
    if x :| ByOwnId(db, q, x) {
      var k :| k in RefRows(db, q) && k.msgid == q.msgid && db.refs[k] == x;
      assert ByReference(db, q, x);
    }
  }

  /** The rows of a tier, and what having the latest date among them says of the series. */
  lemma LatestOfRows(db: Tables, q: SeriesQuery, k: MsgKey)
    requires k in PreferredRows(db, q)
    ensures k in db.refs && db.refs[k] in db.series
    ensures LatestRef(db, q, k) <==>
      forall k' :: k' in PreferredRows(db, q) ==> db.series[db.refs[k']].date <= db.series[db.refs[k]].date
  {
    PreferredMeaning(db, q);
    RefRowsMeaning(db, q);
    forall k' | k' in PreferredRows(db, q) ensures RefDate(db, k') == db.series[db.refs[k']].date {}
  }

  lemma FoundByReference(db: Tables, q: SeriesQuery, r: Option<int>)
    requires RefRows(db, q) != {}
    ensures Found(db, q, r) <==> Ranked(db, q, r)
  {
    EmptyRows(db, q);
    ReferredRows(db, q);
    PreferredMeaning(db, q);
    forall k | k in PreferredRows(db, q)
      ensures k in db.refs && db.refs[k] in db.series
      ensures LatestRef(db, q, k) <==>
        forall k' :: k' in PreferredRows(db, q) ==> db.series[db.refs[k']].date <= db.series[db.refs[k]].date
    {
      LatestOfRows(db, q, k);
    }
  }

  lemma FoundByAuthor(db: Tables, q: SeriesQuery, r: Option<int>)
    requires RefRows(db, q) == {}
    ensures Found(db, q, r) <==> Ranked(db, q, r)
  {
    EmptyRows(db, q);
    MarkerRowsMeaning(db, q);
    forall x | x in MarkerRows(db, q) ensures DateOf(db, x) == db.series[x].date {}
  }

  /** What FindSeries may return is what the ranking says, and nothing else. */
  lemma FoundIsRanked(db: Tables, q: SeriesQuery, r: Option<int>)
    ensures Found(db, q, r) <==> Ranked(db, q, r)
  {
    if RefRows(db, q) == {} {
      FoundByAuthor(db, q, r);
    } else {
      FoundByReference(db, q, r);
    }
  }

  // ---------------------------------------------------------------- the series of a mail

  /** What a mail asks for: a patch by the ids it refers to, a cover by its own. */
  function Asked(s: Step): SeriesQuery {
    var m := s.mail;
    SeriesQuery(m.project, m.author, if s.PatchStep? then m.refs else [m.msgid], m.msgid,
                if s.PatchStep? then m.number else 0, m.version, m.total, m.date)
  }

  /** Storing the mail itself first, without a slot, changes nothing for the query. */
  lemma SameRanking(db: Tables, db1: Tables, q: SeriesQuery, r: Option<int>)
    requires db1.series == db.series && db1.refs == db.refs
    requires forall x, n :: TakenIn(db1, x, n) <==> TakenIn(db, x, n)
    ensures Ranked(db1, q, r) <==> Ranked(db, q, r)
  {
    forall x ensures CanTake(db1, q, x) <==> CanTake(db, q, x) {
      assert TakenIn(db1, x, q.number) <==> TakenIn(db, x, q.number);
    }
    assert forall ids, x :: LedToBy(db1, ids, x) <==> LedToBy(db, ids, x);
    assert forall x :: ByOwnId(db1, q, x) <==> ByOwnId(db, q, x);
    assert forall x :: ByReference(db1, q, x) <==> ByReference(db, q, x);
    assert forall x :: ByAuthor(db1, q, x) <==> ByAuthor(db, q, x);
  }

  ghost predicate TakenIn(db: Tables, x: int, n: int) {
    exists p :: p in db.patches && db.patches[p].slot == Some(Slot(x, n))
  }

  lemma StoredFirst(db: Tables, m: Mail)
    requires IdsFresh(db)
    ensures forall x, n :: TakenIn(WithPatch(db, m), x, n) <==> TakenIn(db, x, n)
  {
    var db1 := WithPatch(db, m);
    forall x, n | TakenIn(db, x, n) ensures TakenIn(db1, x, n) {
      var p :| p in db.patches && db.patches[p].slot == Some(Slot(x, n));
      assert p in db1.patches && db1.patches[p].slot == Some(Slot(x, n));
    }
  }

  /** The series that a stored mail goes to, told from the rows before the mail. */
  lemma MailGoesToRanked(db: Tables, s: Step)
    requires IdsFresh(db) && StepOk(db, s) && !Duplicate(db, s)
    ensures Ranked(db, Asked(s), s.found)
  {
    if s.PatchStep? {
      FoundIsRanked(WithPatch(db, s.mail), Asked(s), s.found);
      StoredFirst(db, s.mail);
      SameRanking(db, WithPatch(db, s.mail), Asked(s), s.found);
    } else {
      FoundIsRanked(WithCover(db, s.mail), Asked(s), s.found);
      SameRanking(db, WithCover(db, s.mail), Asked(s), s.found);
    }
  }
}
