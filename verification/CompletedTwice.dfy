/**
 A run in which series-completed is emitted a second time by a mail whose number is in range: the
 series got its total of patches through a number above the total.
 */
module CompletedTwice {
  import opened Wrappers
  import opened Tables
  import opened Ingest
  import opened SeriesInvariant
  import opened Completion
  import opened StepEffects

  /** A diff that refers to the first one, with the same markers but its number. */
  predicate RepliesTo(m: Mail, first: Mail) {
    && m.refs == [first.msgid] && m.project == first.project && m.version == first.version && m.total == first.total
    && Near(first.date, m.date) && Plain(m)
  }

  /** A numbered diff of a first version. */
  predicate Plain(m: Mail) {
    m.number > 0 && m.total > 0 && m.version == 1 && m.date != ZERO_TIME
  }

  /** There is one series, with these numbers taken, and all references lead to it. */
  ghost predicate OneSeries(db: Tables, first: Mail, ids: set<string>, numbers: set<int>) {
    && Inv(db) && db.series.Keys == {1} && RowFits(db.series[1], first) && db.series[1].date == first.date
    && MsgKey(first.project, first.msgid) in db.refs
    && (forall k :: k in db.refs ==> db.refs[k] == 1)
    && (forall p :: p in db.patches ==> db.patches[p].msgid in ids)
    && Slots(db, 1) == numbers
  }

  function Opening(m: Mail): Step {
    PatchStep(m, None, None)
  }

  function Reply(m: Mail): Step {
    PatchStep(m, Some(1), None)
  }

  lemma OpeningIsOk(m: Mail)
    requires Plain(m)
    ensures StepOk(EMPTY, Opening(m)) && !Duplicate(EMPTY, Opening(m))
  {
    var db1, q := WithPatch(EMPTY, m), PatchQuery(m);
    assert RefRows(db1, q) == {} && MarkerRows(db1, q) == {};
  }

  lemma OpeningOpens(m: Mail)
    requires Plain(m) && m.refs == [] && StepOk(EMPTY, Opening(m)) && !Duplicate(EMPTY, Opening(m))
    ensures OneSeries(After(EMPTY, Opening(m)), m, {m.msgid}, {m.number})
  {
    EmptyTablesAreFine(1);
    StepKeepsInvariant(EMPTY, Opening(m));
    PatchEffect(EMPTY, Opening(m));
    SlotsAfter(EMPTY, Opening(m), 1);
    SlotsPositive(EMPTY, 1);
    assert m.msgid in AllRefs(m);
    assert MsgKey(m.project, m.msgid) in KeysOf(m.project, AllRefs(m));
  }

  /** A reply finds the series by its reference. */
  lemma ReplyIsFound(db: Tables, first: Mail, m: Mail, ids: set<string>, numbers: set<int>)
    requires OneSeries(db, first, ids, numbers) && RepliesTo(m, first) && m.number !in numbers
    ensures Found(WithPatch(db, m), PatchQuery(m), Some(1))
  {
    var db1, q, k := WithPatch(db, m), PatchQuery(m), MsgKey(first.project, first.msgid);
    assert forall p :: IsMember(db1, p, 1) <==> IsMember(db, p, 1) by {
      assert IdsFresh(db);
    }
    SlotsUnchanged(db, db1, 1);
    assert k in RefRows(db1, q);
    FoundExists(db1, q);
    var best :| LatestRef(db1, q, best);
    assert db1.refs[best] == 1;
  }

  lemma ReplyIsOk(db: Tables, first: Mail, m: Mail, ids: set<string>, numbers: set<int>)
    requires OneSeries(db, first, ids, numbers) && RepliesTo(m, first)
    requires m.number !in numbers && m.msgid !in ids
    ensures StepOk(db, Reply(m)) && !Duplicate(db, Reply(m))
  {
    ReplyIsFound(db, first, m, ids, numbers);
  }

  /** The patch and the references that a stored reply leaves. */
  lemma ReplyStored(db: Tables, first: Mail, m: Mail, ids: set<string>, numbers: set<int>)
    requires OneSeries(db, first, ids, numbers) && RepliesTo(m, first)
    requires StepOk(db, Reply(m)) && !Duplicate(db, Reply(m))
    ensures var db' := After(db, Reply(m));
      && (forall k :: k in db'.refs ==> db'.refs[k] == 1)
      && (forall p :: p in db'.patches ==> db'.patches[p].msgid in ids + {m.msgid})
      && db'.series.Keys == {1}
  {
    PatchEffect(db, Reply(m));
  }

  lemma RowStays(db: Tables, db': Tables, first: Mail)
    requires Grows(db, db') && 1 in db.series && RowFits(db.series[1], first) && db.series[1].date == first.date
    requires MsgKey(first.project, first.msgid) in db.refs
    ensures 1 in db'.series && RowFits(db'.series[1], first) && db'.series[1].date == first.date
    ensures MsgKey(first.project, first.msgid) in db'.refs
  {
  }

  lemma ReplyJoins(db: Tables, first: Mail, m: Mail, ids: set<string>, numbers: set<int>)
    requires OneSeries(db, first, ids, numbers) && RepliesTo(m, first)
    requires StepOk(db, Reply(m)) && !Duplicate(db, Reply(m))
    ensures OneSeries(After(db, Reply(m)), first, ids + {m.msgid}, numbers + {m.number})
  {
    StepKeepsInvariant(db, Reply(m));
    ReplyStored(db, first, m, ids, numbers);
    RowStays(db, After(db, Reply(m)), first);
    SlotsAfter(db, Reply(m), 1);
  }

  /** The run leads from the empty tables to these. */
  ghost predicate Reaches(steps: seq<Step>, db: Tables) {
    RunOk(EMPTY, steps) && AfterRun(EMPTY, steps) == db
  }

  lemma OpeningReaches(m: Mail) returns (db: Tables)
    requires Plain(m) && m.refs == [] && m.total > 1
    ensures Reaches([] + [Opening(m)], db) && OneSeries(db, m, {m.msgid}, {m.number}) && Completions(db.events, 1) == 0
  {
    OpeningIsOk(m);
    OpeningOpens(m);
    db := After(EMPTY, Opening(m));
    OneMoreStep(EMPTY, [], Opening(m));
    EmptyTablesAreFine(1);
    CompletingStepsEmit(EMPTY, Opening(m), 1);
  }

  /** A reply emits series-completed when the numbers with its own make up the total. */
  lemma ReplyCounts(db: Tables, first: Mail, m: Mail, ids: set<string>, numbers: set<int>)
    requires OneSeries(db, first, ids, numbers) && RepliesTo(m, first)
    requires StepOk(db, Reply(m)) && !Duplicate(db, Reply(m))
    ensures Completions(After(db, Reply(m)).events, 1) ==
            Completions(db.events, 1) + if |numbers| + 1 >= first.total then 1 else 0
  {
    MembersAreSlots(db, 1);
    CompletingStepsEmit(db, Reply(m), 1);
  }

  lemma ReplyReaches(steps: seq<Step>, db: Tables, first: Mail, m: Mail, ids: set<string>, numbers: set<int>)
    returns (db': Tables)
    requires Reaches(steps, db) && OneSeries(db, first, ids, numbers) && RepliesTo(m, first)
    requires m.number !in numbers && m.msgid !in ids
    ensures Reaches(steps + [Reply(m)], db') && OneSeries(db', first, ids + {m.msgid}, numbers + {m.number})
    ensures Completions(db'.events, 1) == Completions(db.events, 1) + if |numbers| + 1 >= first.total then 1 else 0
  {
    ReplyIsOk(db, first, m, ids, numbers);
    ReplyJoins(db, first, m, ids, numbers);
    ReplyCounts(db, first, m, ids, numbers);
    db' := After(db, Reply(m));
    OneMoreStep(EMPTY, steps, Reply(m));
  }

  /** Three mails of a series of two, of which the second has a number above the total. */
  lemma CompletesTwice(a: Mail, b: Mail, c: Mail)
    requires Plain(a) && a.refs == [] && RepliesTo(b, a) && RepliesTo(c, a) && a.total == 2
    requires a.number == 1 && b.number > 2 && c.number == 2
    requires a.msgid != b.msgid && a.msgid != c.msgid && b.msgid != c.msgid
    ensures RunOk(EMPTY, [] + [Opening(a)] + [Reply(b)] + [Reply(c)])
    ensures Completions(AfterRun(EMPTY, [] + [Opening(a)] + [Reply(b)] + [Reply(c)]).events, 1) == 2
  {
    var db1 := OpeningReaches(a);
    var db2 := ReplyReaches([] + [Opening(a)], db1, a, b, {a.msgid}, {1});
    SizeOfOneMore({1}, b.number);
    var db3 := ReplyReaches([] + [Opening(a)] + [Reply(b)], db2, a, c, {a.msgid} + {b.msgid}, {1} + {b.number});
  }

  const ONE: Mail := Mail(1, 1, "<a>", [], "first", 1, 2, 1, 10)
  const THREE: Mail := Mail(1, 1, "<b>", ["<a>"], "third of two", 3, 2, 1, 11)
  const TWO: Mail := Mail(1, 1, "<c>", ["<a>"], "second", 2, 2, 1, 12)

  /** "[PATCH 1/2]", "[PATCH 3/2]", "[PATCH 2/2]": the event comes with the second mail and again with the third. */
  lemma InRangeMailCompletesAgain()
    ensures RunOk(EMPTY, [] + [Opening(ONE)] + [Reply(THREE)] + [Reply(TWO)])
    ensures Completions(AfterRun(EMPTY, [] + [Opening(ONE)] + [Reply(THREE)] + [Reply(TWO)]).events, 1) == 2
    ensures 1 <= TWO.number <= TWO.total
  {
    assert ONE.msgid != THREE.msgid && ONE.msgid != TWO.msgid && THREE.msgid != TWO.msgid;
    CompletesTwice(ONE, THREE, TWO);
  }
}
