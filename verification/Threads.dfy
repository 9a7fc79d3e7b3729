/**
 A thread, a cover letter with its patches, while its mails arrive among others: where they go, and that
 unrelated mails neither end up in its series nor keep its mails from it.
 */
module Threads {
  import opened Wrappers
  import opened Similarity
  import opened Tables
  import opened Ingest
  import opened SeriesInvariant
  import opened StepEffects

  // ---------------------------------------------------------------- threads

  /** A cover letter and the patches of its series. */
  datatype Thread = Thread(cover: Mail, patches: set<Mail>)

  function MailsOf(t: Thread): set<Mail> {
    t.patches + {t.cover}
  }

  predicate SameSeries(m: Mail, n: Mail) {
    m.project == n.project && m.version == n.version && m.total == n.total && Near(m.date, n.date)
  }

  /**
   One thread: same project, version and total, at most 20 minutes apart, distinct numbers and
   message ids; and either one author, or every patch refers to the cover.
   */
  ghost predicate ThreadOk(t: Thread) {
    && (forall m, n :: m in MailsOf(t) && n in MailsOf(t) ==> SameSeries(m, n))
    && (forall m, n :: m in MailsOf(t) && n in MailsOf(t) && m != n ==> m.msgid != n.msgid)
    && (forall m, n :: m in t.patches && n in t.patches && m != n ==> m.number != n.number)
    && (forall m :: m in t.patches ==> m.number > 0)
    && t.cover.number == 0
    && (OneAuthor(t) || Threaded(t))
  }

  ghost predicate OneAuthor(t: Thread) {
    forall m :: m in t.patches ==> m.author == t.cover.author
  }

  ghost predicate Threaded(t: Thread) {
    forall m :: m in t.patches ==> t.cover.msgid in m.refs
  }

  /** A series already stored could take a mail of the thread, whatever slots are free. */
  ghost predicate Competes(db: Tables, sid: int, m: Mail)
    requires sid in db.series
  {
    var row := db.series[sid];
    && row.project == m.project && row.version == m.version && row.total == m.total && Near(row.date, m.date)
    && (row.submitter == m.author || exists k :: k in db.refs && k.msgid in AllRefs(m) && db.refs[k] == sid)
  }

  /**
   The starting point: none of the mails is stored, no series competes, and if there are several authors,
   the cover's id is not yet a reference.
   */
  ghost predicate Quiet(db: Tables, t: Thread) {
    && Inv(db)
    && (forall m, p :: m in t.patches && p in db.patches ==>
         !(db.patches[p].msgid == m.msgid && db.patches[p].project == m.project))
    && (forall c :: c in db.covers ==>
         !(db.covers[c].msgid == t.cover.msgid && db.covers[c].project == t.cover.project))
    && (forall m, sid :: m in MailsOf(t) && sid in db.series ==> !Competes(db, sid, m))
    && (OneAuthor(t) || MsgKey(t.cover.project, t.cover.msgid) !in db.refs)
  }

  ghost predicate Own(t: Thread, s: Step) {
    if s.CoverStep? then s.mail == t.cover else s.mail in t.patches
  }

  // ---------------------------------------------------------------- other mails

  predicate Disjoint(a: seq<string>, b: seq<string>) {
    forall x :: x in a ==> x !in b
  }

  /**
   The mail of the step is unrelated to m of the thread: in its project it has another message id, and if
   it has the same version and total, it shares no id with m and is not by the same author within 20
   minutes. In a thread of several authors, which is held together by the cover's id, it does not refer to
   the cover.
   */
  ghost predicate Unrelated(t: Thread, s: Step, m: Mail) {
    s.mail.project == m.project ==>
      && s.mail.msgid != m.msgid
      && (OneAuthor(t) || t.cover.msgid !in IdsOf(s))
      && (s.mail.version == m.version && s.mail.total == m.total ==>
           Disjoint(IdsOf(s), AllRefs(m)) && (s.mail.author == m.author ==> !Near(s.mail.date, m.date)))
  }

  ghost predicate Foreign(t: Thread, s: Step) {
    forall m :: m in MailsOf(t) ==> Unrelated(t, s, m)
  }

  // ---------------------------------------------------------------- half-way

  ghost predicate Stored(t: Thread, done: set<Mail>, st: Tables, sid: int) {
    forall m :: m in done && m in t.patches ==> exists p :: p in st.patches && st.patches[p] == PatchRow(m, sid)
  }

  /** The name before the cover: that of patch 1 once it is there. */
  ghost predicate NameBeforeCover(t: Thread, done: set<Mail>, name: Option<string>) {
    if exists m :: m in done && m in t.patches && m.number == 1 then
      exists m :: m in done && m in t.patches && m.number == 1 && name == Some(m.subject)
    else name.None?
  }

  /** The series row was made for one of the mails that are there. */
  ghost predicate FromThread(t: Thread, done: set<Mail>, row: Series) {
    exists m :: m in done && m in MailsOf(t) && RowFits(row, m) && row.date == m.date && row.submitter == m.author
  }

  ghost predicate RowOk(t: Thread, done: set<Mail>, st: Tables, row: Series) {
    && FromThread(t, done, row)
    && (t.cover in done ==>
         row.cover.Some? && row.cover.value in st.covers && st.covers[row.cover.value] == CoverRow(t.cover) &&
         row.name == Some(StripPrefixes(t.cover.subject)))
    && (t.cover !in done ==> row.cover.None? && NameBeforeCover(t, done, row.name))
  }

  /** No series but the thread's own could take a mail of the thread. */
  ghost predicate Alone(t: Thread, st: Tables, home: Option<int>) {
    forall m, x :: m in MailsOf(t) && x in st.series && home != Some(x) ==> !Competes(st, x, m)
  }

  /** The mails that have not come yet are not stored. */
  ghost predicate Unstored(t: Thread, done: set<Mail>, st: Tables) {
    && (forall m, p :: m in t.patches && m !in done && p in st.patches ==>
         !(st.patches[p].msgid == m.msgid && st.patches[p].project == m.project))
    && (forall c :: c in st.covers && t.cover !in done ==>
         !(st.covers[c].msgid == t.cover.msgid && st.covers[c].project == t.cover.project))
  }

  /** With several authors the cover's message id leads to the thread's series, and nowhere else before. */
  ghost predicate CoverKey(t: Thread, done: set<Mail>, st: Tables, home: Option<int>) {
    var k := MsgKey(t.cover.project, t.cover.msgid);
    OneAuthor(t) || ((k in st.refs ==> home == Some(st.refs[k])) && (done != {} ==> k in st.refs))
  }

  ghost predicate MembersFrom(t: Thread, done: set<Mail>, st: Tables, sid: int) {
    forall p :: IsMember(st, p, sid) ==> exists m :: m in done && m in t.patches && st.patches[p] == PatchRow(m, sid)
  }

  ghost predicate RefsFrom(t: Thread, done: set<Mail>, st: Tables, sid: int) {
    forall k :: k in st.refs && st.refs[k] == sid ==> exists m :: m in done && m in MailsOf(t) && k.msgid in AllRefs(m)
  }

  /** The thread's series holds the patches that have come, and nothing else. */
  ghost predicate HomeOk(t: Thread, done: set<Mail>, st: Tables, sid: int) {
    && sid in st.series && RowOk(t, done, st, st.series[sid])
    && Stored(t, done, st, sid) && MembersFrom(t, done, st, sid) && RefsFrom(t, done, st, sid)
  }

  ghost predicate Underway(t: Thread, done: set<Mail>, st: Tables, home: Option<int>) {
    && Inv(st) && done <= MailsOf(t) && (home.None? <==> done == {})
    && Alone(t, st, home) && Unstored(t, done, st) && CoverKey(t, done, st, home)
    && (home.Some? ==> HomeOk(t, done, st, home.value))
  }

  lemma QuietIsUnderway(db: Tables, t: Thread)
    requires Quiet(db, t)
    ensures Underway(t, {}, db, None)
  {
    assert Alone(t, db, None);
    assert Unstored(t, {}, db);
    assert CoverKey(t, {}, db, None);
    var none: set<Mail> := {};
    assert none <= MailsOf(t);
  }

  // ---------------------------------------------------------------- a mail of the thread

  lemma OwnIsMail(t: Thread, s: Step)
    requires Own(t, s)
    ensures s.mail in MailsOf(t)
  {
  }

  lemma RepeatedIsDuplicate(t: Thread, done: set<Mail>, st: Tables, home: Option<int>, s: Step)
    requires ThreadOk(t) && Underway(t, done, st, home) && Own(t, s) && s.mail in done
    ensures Duplicate(st, s)
  {
    if s.PatchStep? {
      var p :| p in st.patches && st.patches[p] == PatchRow(s.mail, home.value);
    } else {
      var c := st.series[home.value].cover.value;
      assert c in st.covers && st.covers[c] == CoverRow(s.mail);
    }
  }

  function QueryOf(s: Step): SeriesQuery {
    if s.PatchStep? then PatchQuery(s.mail) else CoverQuery(s.mail)
  }

  function WithMail(db: Tables, s: Step): Tables {
    if s.PatchStep? then WithPatch(db, s.mail) else WithCover(db, s.mail)
  }

  lemma LookupMeaning(db: Tables, s: Step)
    requires Inv(db) && Dispatched(s) && Located(db, s)
    ensures s.found.Some? <==> exists x :: Eligible(db, QueryOf(s), x)
    ensures s.found.Some? ==> Eligible(db, QueryOf(s), s.found.value)
  {
    var db1 := WithMail(db, s);
    FoundMeaning(db1, QueryOf(s), s.found);
    forall x ensures Eligible(db1, QueryOf(s), x) <==> Eligible(db, QueryOf(s), x) {
      SlotsUnchanged(db, db1, x);
    }
  }

  lemma EligibleCompetes(t: Thread, st: Tables, s: Step, x: int)
    requires Own(t, s) && Dispatched(s) && Eligible(st, QueryOf(s), x)
    ensures Competes(st, x, s.mail)
  {
    if k :| k in st.refs && k.msgid in QueryOf(s).refs && st.refs[k] == x {
      assert k.msgid in AllRefs(s.mail);
    }
  }

  lemma SlotIsFree(t: Thread, done: set<Mail>, st: Tables, sid: int, m: Mail)
    requires ThreadOk(t) && MembersFrom(t, done, st, sid) && m in t.patches && m !in done
    ensures m.number !in Slots(st, sid)
  {
    SlotHasOccupant(st, sid, m.number);
  }

  lemma HomeIsEligible(t: Thread, done: set<Mail>, st: Tables, sid: int, s: Step)
    requires ThreadOk(t) && Underway(t, done, st, Some(sid)) && Own(t, s) && s.mail !in done && Dispatched(s)
    ensures Eligible(st, QueryOf(s), sid)
  {
    var row := st.series[sid];
    var m :| m in done && m in MailsOf(t) && RowFits(row, m) && row.date == m.date && row.submitter == m.author;
    assert SameSeries(m, s.mail);
    if s.PatchStep? {
      SlotIsFree(t, done, st, sid, s.mail);
    }
    assert Fits(st, QueryOf(s), sid);
    if !OneAuthor(t) {
      assert MsgKey(t.cover.project, t.cover.msgid) in st.refs;
    }
  }

  /** A mail of the thread finds the thread's series, or no series if it is the first. */
  lemma NextFinds(t: Thread, done: set<Mail>, st: Tables, home: Option<int>, s: Step)
    requires ThreadOk(t) && Underway(t, done, st, home) && Own(t, s) && s.mail !in done && StepOk(st, s)
    ensures !Duplicate(st, s) && s.found == home
  {
    LookupMeaning(st, s);
    if s.found.Some? {
      EligibleCompetes(t, st, s, s.found.value);
    }
    if home.Some? {
      HomeIsEligible(t, done, st, home.value, s);
    }
  }

  /** A mail of the thread has been stored in the series sid, which is the thread's from then on. */
  ghost predicate Joins(t: Thread, done: set<Mail>, st: Tables, st': Tables, home: Option<int>, s: Step, sid: int) {
    && ThreadOk(t) && Underway(t, done, st, home) && Own(t, s) && s.mail !in done && s.found == home
    && Inv(st') && Goes(st, st', s, sid) && sid == Target(st, s.found)
  }

  lemma AloneWith(t: Thread, done: set<Mail>, st: Tables, st': Tables, home: Option<int>, s: Step, sid: int)
    requires Joins(t, done, st, st', home, s, sid)
    ensures Alone(t, st', Some(sid))
  {
    forall m, x | m in MailsOf(t) && x in st'.series && sid != x ensures !Competes(st', x, m) {
      assert !Competes(st, x, m);
    }
  }

  lemma UnstoredWith(t: Thread, done: set<Mail>, st: Tables, st': Tables, home: Option<int>, s: Step, sid: int)
    requires Joins(t, done, st, st', home, s, sid)
    ensures Unstored(t, done + {s.mail}, st')
  {
    OwnIsMail(t, s);
  }

  /** All ids of the mail are references now. */
  ghost predicate LeavesIds(st': Tables, s: Step) {
    forall id :: id in IdsOf(s) ==> MsgKey(s.mail.project, id) in st'.refs
  }

  lemma CoverKeyWith(t: Thread, done: set<Mail>, st: Tables, st': Tables, home: Option<int>, s: Step, sid: int)
    requires Joins(t, done, st, st', home, s, sid) && (s.PatchStep? || home.None? ==> LeavesIds(st', s))
    ensures CoverKey(t, done + {s.mail}, st', Some(sid))
  {
    OwnIsMail(t, s);
    assert SameSeries(t.cover, s.mail);
  }

  lemma RefsWith(t: Thread, done: set<Mail>, st: Tables, st': Tables, home: Option<int>, s: Step, sid: int)
    requires Joins(t, done, st, st', home, s, sid)
    ensures RefsFrom(t, done + {s.mail}, st', sid)
  {
    OwnIsMail(t, s);
    forall k | k in st'.refs && st'.refs[k] == sid
      ensures exists m :: m in done + {s.mail} && m in MailsOf(t) && k.msgid in AllRefs(m)
    {
      if k in st.refs {
        var m :| m in done && m in MailsOf(t) && k.msgid in AllRefs(m);
        assert m in done + {s.mail};
      } else {
        assert s.mail in done + {s.mail} && k.msgid in AllRefs(s.mail);
      }
    }
  }

  /** A member of the series before the mail is one of the thread: a series that is not there has none. */
  lemma OldMember(t: Thread, done: set<Mail>, st: Tables, home: Option<int>, sid: int, p: int) returns (m: Mail)
    requires Underway(t, done, st, home) && sid == Target(st, home) && IsMember(st, p, sid)
    ensures m in done && m in t.patches && st.patches[p] == PatchRow(m, sid)
  {
    assert MemberOk(st, p);
    m :| m in done && m in t.patches && st.patches[p] == PatchRow(m, sid);
  }

  lemma MembersWithPatch(t: Thread, done: set<Mail>, st: Tables, st': Tables, home: Option<int>, s: Step, sid: int)
    requires Joins(t, done, st, st', home, s, sid) && s.PatchStep?
    requires st'.patches == st.patches[st.nextPatch := PatchRow(s.mail, sid)]
    ensures MembersFrom(t, done + {s.mail}, st', sid)
  {
    forall p | IsMember(st', p, sid)
      ensures exists m :: m in done + {s.mail} && m in t.patches && st'.patches[p] == PatchRow(m, sid)
    {
      if p == st.nextPatch {
        assert s.mail in done + {s.mail};
      } else {
        var m := OldMember(t, done, st, home, sid, p);
        assert m in done + {s.mail};
      }
    }
  }

  lemma MembersWithCover(t: Thread, done: set<Mail>, st: Tables, st': Tables, home: Option<int>, s: Step, sid: int)
    requires Joins(t, done, st, st', home, s, sid) && st'.patches == st.patches
    ensures MembersFrom(t, done + {s.mail}, st', sid)
  {
    forall p | IsMember(st', p, sid)
      ensures exists m :: m in done + {s.mail} && m in t.patches && st'.patches[p] == PatchRow(m, sid)
    {
      var m := OldMember(t, done, st, home, sid, p);
      assert m in done + {s.mail};
    }
  }

  lemma PatchAdds(t: Thread, done: set<Mail>, st: Tables, st': Tables, m: Mail, pid: int, sid: int)
    requires m in t.patches && pid !in st.patches && st'.patches == st.patches[pid := PatchRow(m, sid)]
    requires Stored(t, done, st, sid)
    ensures Stored(t, done + {m}, st', sid)
  {
    assert pid in st'.patches;
    forall n | n in done + {m} && n in t.patches
      ensures exists p :: p in st'.patches && st'.patches[p] == PatchRow(n, sid)
    {
      if n != m {
        var p :| p in st.patches && st.patches[p] == PatchRow(n, sid);
        assert p in st'.patches;
      }
    }
  }

  lemma StoredWithPatch(t: Thread, done: set<Mail>, st: Tables, st': Tables, home: Option<int>, s: Step, sid: int)
    requires Joins(t, done, st, st', home, s, sid) && s.PatchStep?
    requires st'.patches == st.patches[st.nextPatch := PatchRow(s.mail, sid)]
    ensures Stored(t, done + {s.mail}, st', sid)
  {
    assert st.nextPatch !in st.patches;
    PatchAdds(t, done, st, st', s.mail, st.nextPatch, sid);
  }

  lemma StoredWithCover(t: Thread, done: set<Mail>, st: Tables, st': Tables, home: Option<int>, s: Step, sid: int)
    requires Joins(t, done, st, st', home, s, sid) && s.CoverStep? && st'.patches == st.patches
    ensures Stored(t, done + {s.mail}, st', sid)
  {
    forall m | m in done + {s.mail} && m in t.patches
      ensures exists p :: p in st'.patches && st'.patches[p] == PatchRow(m, sid)
    {
      assert m != t.cover;
      var p :| p in st.patches && st.patches[p] == PatchRow(m, sid);
    }
  }

  lemma OriginStays(t: Thread, done: set<Mail>, row: Series, row': Series, m: Mail)
    requires FromThread(t, done, row) && SameIdentity(row, row')
    ensures FromThread(t, done + {m}, row')
  {
    var n :| n in done && n in MailsOf(t) && RowFits(row, n) && row.date == n.date && row.submitter == n.author;
    assert n in done + {m};
  }

  lemma OriginIsFirst(t: Thread, done: set<Mail>, row: Series, m: Mail)
    requires m in MailsOf(t) && row.project == m.project && row.version == m.version && row.total == m.total
    requires row.date == m.date && row.submitter == m.author
    ensures FromThread(t, done + {m}, row)
  {
    assert m in done + {m} && RowFits(row, m);
  }

  lemma OriginWith(t: Thread, done: set<Mail>, st: Tables, st': Tables, home: Option<int>, s: Step, sid: int)
    requires Joins(t, done, st, st', home, s, sid)
    ensures FromThread(t, done + {s.mail}, st'.series[sid])
  {
    OwnIsMail(t, s);
    if done == {} {
      assert st.nextSeries !in st.series;
      OriginIsFirst(t, done, st'.series[sid], s.mail);
    } else {
      OriginStays(t, done, st.series[sid], st'.series[sid], s.mail);
    }
  }

  lemma NameStaysRight(t: Thread, done: set<Mail>, m: Mail, name: Option<string>, name': Option<string>)
    requires ThreadOk(t) && m in t.patches && m !in done
    requires NameBeforeCover(t, done, name)
    requires name' == if name.None? && m.number == 1 then Some(m.subject) else name
    ensures NameBeforeCover(t, done + {m}, name')
  {
    if n :| n in done && n in t.patches && n.number == 1 && name == Some(n.subject) {
      assert n in done + {m};
    } else if m.number == 1 {
      assert m in done + {m};
    }
  }

  /** The row as a patch leaves it: no cover yet, or the cover and its name as they were. */
  lemma RowAfterPatchOk(t: Thread, done: set<Mail>, st: Tables, st': Tables, base: Series, row: Series, m: Mail)
    requires ThreadOk(t) && m in t.patches && m !in done && m != t.cover && st'.covers == st.covers
    requires row.cover == base.cover
    requires row.name == if base.name.None? && m.number == 1 then Some(m.subject) else base.name
    requires if done == {} then base.cover.None? && base.name.None? else RowOk(t, done, st, base)
    requires FromThread(t, done + {m}, row)
    ensures RowOk(t, done + {m}, st', row)
  {
    if t.cover !in done {
      NameStaysRight(t, done, m, base.name, row.name);
    }
  }

  lemma RowWithPatch(t: Thread, done: set<Mail>, st: Tables, st': Tables, home: Option<int>, s: Step, sid: int)
    requires Joins(t, done, st, st', home, s, sid) && s.PatchStep?
    requires RowAfterPatch(st, st', s) && st'.covers == st.covers
    ensures RowOk(t, done + {s.mail}, st', st'.series[sid])
  {
    OriginWith(t, done, st, st', home, s, sid);
    RowAfterPatchOk(t, done, st, st', BaseRow(st, s), st'.series[sid], s.mail);
  }

  /** Until the cover comes the series has no name, or that of its patch 1. */
  lemma NameBefore(t: Thread, done: set<Mail>, st: Tables, sid: int)
    requires HomeOk(t, done, st, sid) && t.cover !in done
    ensures var name := st.series[sid].name;
      name.None? || exists p :: InSlot(st, p, sid, 1) && name == Some(st.patches[p].name)
  {
    if n :| n in done && n in t.patches && n.number == 1 && st.series[sid].name == Some(n.subject) {
      var p :| p in st.patches && st.patches[p] == PatchRow(n, sid);
      assert InSlot(st, p, sid, 1);
    }
  }

  /** A name taken from patch 1 is replaced, an absent one is set. */
  lemma CoverNames(t: Thread, done: set<Mail>, st: Tables, st': Tables, home: Option<int>, s: Step, sid: int)
    requires Joins(t, done, st, st', home, s, sid) && s.CoverStep? && RowAfterCover(st, st', s)
    ensures st'.series[sid].name == Some(StripPrefixes(t.cover.subject))
  {
    if done != {} {
      NameBefore(t, done, st, sid);
    }
  }

  lemma RowWithCover(t: Thread, done: set<Mail>, st: Tables, st': Tables, home: Option<int>, s: Step, sid: int)
    requires Joins(t, done, st, st', home, s, sid) && s.CoverStep?
    requires RowAfterCover(st, st', s) && st'.covers == st.covers[st.nextCover := CoverRow(s.mail)]
    ensures RowOk(t, done + {s.mail}, st', st'.series[sid])
  {
    OriginWith(t, done, st, st', home, s, sid);
    CoverNames(t, done, st, st', home, s, sid);
  }

  /** A cover names its series whether it comes before or after patch 1. */
  lemma CoverGetsItsName(t: Thread, done: set<Mail>, st: Tables, home: Option<int>, s: Step)
    requires ThreadOk(t) && Underway(t, done, st, home) && Own(t, s) && s.CoverStep? && s.mail !in done
    requires StepOk(st, s)
    ensures Target(st, home) in After(st, s).series
    ensures After(st, s).series[Target(st, home)].name == Some(StripPrefixes(t.cover.subject))
  {
    NextFinds(t, done, st, home, s);
    StepKeepsInvariant(st, s);
    StepGoes(st, s);
    CoverEffect(st, s);
    CoverNames(t, done, st, After(st, s), home, s, Target(st, home));
  }

  lemma JoinsKeeps(t: Thread, done: set<Mail>, st: Tables, st': Tables, home: Option<int>, s: Step, sid: int)
    requires Joins(t, done, st, st', home, s, sid) && HomeOk(t, done + {s.mail}, st', sid)
    requires s.PatchStep? || home.None? ==> LeavesIds(st', s)
    ensures Underway(t, done + {s.mail}, st', Some(sid))
  {
    OwnIsMail(t, s);
    AloneWith(t, done, st, st', home, s, sid);
    UnstoredWith(t, done, st, st', home, s, sid);
    CoverKeyWith(t, done, st, st', home, s, sid);
  }

  lemma PatchJoins(t: Thread, done: set<Mail>, st: Tables, st': Tables, home: Option<int>, s: Step, sid: int)
    requires Joins(t, done, st, st', home, s, sid) && s.PatchStep?
    requires RowAfterPatch(st, st', s) && TablesAfterPatch(st, st', s)
    ensures Underway(t, done + {s.mail}, st', Some(sid))
  {
    RowWithPatch(t, done, st, st', home, s, sid);
    StoredWithPatch(t, done, st, st', home, s, sid);
    MembersWithPatch(t, done, st, st', home, s, sid);
    RefsWith(t, done, st, st', home, s, sid);
    assert LeavesIds(st', s);
    JoinsKeeps(t, done, st, st', home, s, sid);
  }

  lemma CoverJoins(t: Thread, done: set<Mail>, st: Tables, st': Tables, home: Option<int>, s: Step, sid: int)
    requires Joins(t, done, st, st', home, s, sid) && s.CoverStep?
    requires RowAfterCover(st, st', s) && TablesAfterCover(st, st', s)
    ensures Underway(t, done + {s.mail}, st', Some(sid))
  {
    RowWithCover(t, done, st, st', home, s, sid);
    StoredWithCover(t, done, st, st', home, s, sid);
    MembersWithCover(t, done, st, st', home, s, sid);
    RefsWith(t, done, st, st', home, s, sid);
    JoinsKeeps(t, done, st, st', home, s, sid);
  }

  /** A mail of the thread has been stored, or, if it had come before, nothing has happened. */
  lemma OwnKeeps(t: Thread, done: set<Mail>, st: Tables, home: Option<int>, s: Step)
    requires ThreadOk(t) && Underway(t, done, st, home) && Own(t, s) && StepOk(st, s)
    ensures Underway(t, done + {s.mail}, After(st, s), if s.mail in done then home else Some(Target(st, home)))
  {
    if s.mail in done {
      RepeatedIsDuplicate(t, done, st, home, s);
      assert done + {s.mail} == done;
    } else {
      NextFinds(t, done, st, home, s);
      StepKeepsInvariant(st, s);
      StepGoes(st, s);
      if s.PatchStep? {
        PatchEffect(st, s);
        PatchJoins(t, done, st, After(st, s), home, s, Target(st, home));
      } else {
        CoverEffect(st, s);
        CoverJoins(t, done, st, After(st, s), home, s, Target(st, home));
      }
    }
  }

  // ---------------------------------------------------------------- an unrelated mail

  /** An unrelated mail has been stored in the series x, which it found or opened. */
  ghost predicate Passes(t: Thread, done: set<Mail>, st: Tables, st': Tables, home: Option<int>, s: Step, x: int) {
    && Underway(t, done, st, home) && Foreign(t, s) && Inv(st') && Goes(st, st', s, x) && home != Some(x)
    && (x in st.series ==> RowFits(st.series[x], s.mail))
  }

  predicate SameMarkers(row: Series, m: Mail) {
    row.project == m.project && row.version == m.version && row.total == m.total
  }

  lemma NotByReference(t: Thread, done: set<Mail>, st: Tables, sid: int, s: Step, k: MsgKey)
    requires HomeOk(t, done, st, sid) && Foreign(t, s) && SameMarkers(st.series[sid], s.mail)
    requires forall m :: m in done && m in MailsOf(t) ==> SameMarkers(st.series[sid], m)
    requires k in st.refs && st.refs[k] == sid
    ensures k.msgid !in IdsOf(s)
  {
    var n :| n in done && n in MailsOf(t) && k.msgid in AllRefs(n);
    assert Unrelated(t, s, n);
  }

  lemma HomeMarkers(t: Thread, done: set<Mail>, st: Tables, sid: int)
    requires ThreadOk(t) && HomeOk(t, done, st, sid)
    ensures forall m :: m in done && m in MailsOf(t) ==> SameMarkers(st.series[sid], m)
  {
    var row := st.series[sid];
    var m :| m in done && m in MailsOf(t) && RowFits(row, m) && row.date == m.date && row.submitter == m.author;
    forall n | n in done && n in MailsOf(t) ensures SameMarkers(row, n) {
      assert SameSeries(m, n);
    }
  }

  lemma NotByAuthor(t: Thread, done: set<Mail>, row: Series, s: Step)
    requires Foreign(t, s) && FromThread(t, done, row) && RowFits(row, s.mail)
    ensures row.submitter != s.mail.author
  {
    var m :| m in done && m in MailsOf(t) && RowFits(row, m) && row.date == m.date && row.submitter == m.author;
    assert Unrelated(t, s, m);
  }

  lemma HomeIsNotEligible(t: Thread, done: set<Mail>, st: Tables, sid: int, s: Step)
    requires ThreadOk(t) && Underway(t, done, st, Some(sid)) && Foreign(t, s) && Dispatched(s)
    ensures !Eligible(st, QueryOf(s), sid)
  {
    if Fits(st, QueryOf(s), sid) {
      HomeMarkers(t, done, st, sid);
      NotByAuthor(t, done, st.series[sid], s);
      forall k | k in st.refs && st.refs[k] == sid ensures k.msgid !in QueryOf(s).refs {
        NotByReference(t, done, st, sid, s, k);
      }
    }
  }

  lemma ForeignPasses(t: Thread, done: set<Mail>, st: Tables, home: Option<int>, s: Step)
    requires ThreadOk(t) && Underway(t, done, st, home) && Foreign(t, s) && StepOk(st, s) && !Duplicate(st, s)
    ensures Passes(t, done, st, After(st, s), home, s, Target(st, s.found))
  {
    LookupMeaning(st, s);
    if home.Some? {
      HomeIsNotEligible(t, done, st, home.value, s);
    }
    StepKeepsInvariant(st, s);
    StepGoes(st, s);
  }

  lemma StillNoRival(t: Thread, done: set<Mail>, st: Tables, st': Tables, home: Option<int>, s: Step, x: int, m: Mail)
    requires Passes(t, done, st, st', home, s, x) && m in MailsOf(t)
    ensures !Competes(st', x, m)
  {
    assert Unrelated(t, s, m);
    assert x in st.series ==> !Competes(st, x, m);
    forall k | k in st'.refs && k !in st.refs ensures k.msgid in IdsOf(s) {}
  }

  lemma AloneStill(t: Thread, done: set<Mail>, st: Tables, st': Tables, home: Option<int>, s: Step, x: int)
    requires Passes(t, done, st, st', home, s, x)
    ensures Alone(t, st', home)
  {
    forall m, y | m in MailsOf(t) && y in st'.series && home != Some(y) ensures !Competes(st', y, m) {
      if y == x {
        StillNoRival(t, done, st, st', home, s, x, m);
      } else {
        assert !Competes(st, y, m);
      }
    }
  }

  lemma UnstoredStill(t: Thread, done: set<Mail>, st: Tables, st': Tables, home: Option<int>, s: Step, x: int)
    requires Passes(t, done, st, st', home, s, x)
    ensures Unstored(t, done, st')
  {
    forall m | m in MailsOf(t) ensures Unrelated(t, s, m) {}
  }

  lemma CoverKeyStill(t: Thread, done: set<Mail>, st: Tables, st': Tables, home: Option<int>, s: Step, x: int)
    requires Passes(t, done, st, st', home, s, x)
    ensures CoverKey(t, done, st', home)
  {
    assert Unrelated(t, s, t.cover);
  }

  lemma RowStill(t: Thread, done: set<Mail>, st: Tables, st': Tables, row: Series)
    requires RowOk(t, done, st, row)
    requires forall c :: c in st.covers ==> c in st'.covers && st'.covers[c] == st.covers[c]
    ensures RowOk(t, done, st', row)
  {
    if t.cover in done {
      var c := row.cover.value;
      assert c in st.covers;
      assert c in st'.covers && st'.covers[c] == st.covers[c];
    } else {
      assert NameBeforeCover(t, done, row.name);
    }
  }

  lemma StoredStill(t: Thread, done: set<Mail>, st: Tables, st': Tables, sid: int)
    requires Stored(t, done, st, sid)
    requires forall p :: p in st.patches ==> p in st'.patches && st'.patches[p] == st.patches[p]
    ensures Stored(t, done, st', sid)
  {
    forall m | m in done && m in t.patches ensures exists p :: p in st'.patches && st'.patches[p] == PatchRow(m, sid) {
      var p :| p in st.patches && st.patches[p] == PatchRow(m, sid);
      assert p in st'.patches;
    }
  }

  lemma HomeStill(t: Thread, done: set<Mail>, st: Tables, st': Tables, s: Step, x: int, sid: int)
    requires Passes(t, done, st, st', Some(sid), s, x)
    ensures HomeOk(t, done, st', sid)
  {
    RowStill(t, done, st, st', st.series[sid]);
    forall p | IsMember(st', p, sid) ensures p in st.patches && IsMember(st, p, sid) {}
    forall k | k in st'.refs && st'.refs[k] == sid ensures k in st.refs {}
    StoredStill(t, done, st, st', sid);
  }

  lemma ForeignKeeps(t: Thread, done: set<Mail>, st: Tables, home: Option<int>, s: Step)
    requires ThreadOk(t) && Underway(t, done, st, home) && Foreign(t, s) && StepOk(st, s)
    ensures Underway(t, done, After(st, s), home)
  {
    if !Duplicate(st, s) {
      var x := Target(st, s.found);
      ForeignPasses(t, done, st, home, s);
      AloneStill(t, done, st, After(st, s), home, s, x);
      UnstoredStill(t, done, st, After(st, s), home, s, x);
      CoverKeyStill(t, done, st, After(st, s), home, s, x);
      if home.Some? {
        HomeStill(t, done, st, After(st, s), s, x, home.value);
      }
    }
  }
}
