/**
 When a series is linked to its previous version, and to which: told from the rows after the mail, by
 references first and by similar names otherwise.
 */
module Links {
  import opened Wrappers
  import opened Similarity
  import opened Tables
  import opened Ingest
  import opened SeriesInvariant
  import opened StepEffects

  // ---------------------------------------------------------------- what could be linked

  /** The id leads to another series of the same author, one version below. */
  ghost predicate LeadsBelow(db: Tables, project: int, id: string, sid: int)
    requires sid in db.series
  {
    var k := MsgKey(project, id);
    && k in db.refs && db.refs[k] in db.series && db.refs[k] != sid
    && db.series[db.refs[k]].submitter == db.series[sid].submitter
    && db.series[db.refs[k]].version == db.series[sid].version - 1
  }

  /** The i-th id the mail refers to is the first of its ids that leads below. */
  ghost predicate FirstBelow(db: Tables, m: Mail, sid: int, i: int)
    requires sid in db.series
  {
    && 0 <= i < |m.refs| && LeadsBelow(db, m.project, m.refs[i], sid)
    && forall j :: 0 <= j < i ==> !LeadsBelow(db, m.project, m.refs[j], sid)
  }

  /** A named series of the same project and author, one version below. */
  ghost predicate NamedBelow(db: Tables, project: int, y: int, sid: int)
    requires sid in db.series
  {
    && y in db.series && db.series[y].name.Some? && db.series[y].project == project
    && db.series[y].submitter == db.series[sid].submitter && db.series[y].version == db.series[sid].version - 1
  }

  /** How similar the names are, prefixes stripped. */
  function Likeness(name: string, other: string): real {
    NameRatio(StripPrefixes(name), StripPrefixes(other))
  }

  ghost predicate Similar(db: Tables, project: int, name: string, y: int, sid: int)
    requires sid in db.series
  {
    NamedBelow(db, project, y, sid) && Likeness(name, db.series[y].name.value) >= 0.8
  }

  /** The most similar one, and the latest of those that are equally similar. */
  ghost predicate MostSimilar(db: Tables, project: int, name: string, y: int, sid: int)
    requires sid in db.series
  {
    && Similar(db, project, name, y, sid)
    && forall x :: Similar(db, project, name, x, sid) ==>
         var here, there := Likeness(name, db.series[y].name.value), Likeness(name, db.series[x].name.value);
         there < here || (there == here && db.series[x].date <= db.series[y].date)
  }

  /** The name that is compared: the one after a patch, but the one before a cover. */
  ghost function NameCompared(db: Tables, s: Step, last: Tables): Option<string>
    requires s.found.Some? ==> s.found.value in db.series
    requires Target(db, s.found) in last.series
  {
    if s.PatchStep? then last.series[Target(db, s.found)].name
    else if s.found.Some? then db.series[s.found.value].name
    else None
  }

  /** The link after a mail: a first reference that leads below, else the most similar name, else none is set. */
  ghost predicate LinkedAs(db: Tables, s: Step, last: Tables)
    requires s.found.Some? ==> s.found.value in db.series
    requires Target(db, s.found) in last.series
  {
    var sid, m, name := Target(db, s.found), s.mail, NameCompared(db, s, last);
    var link, before := last.series[sid].previous, if s.found.Some? then db.series[s.found.value].previous else None;
    if m.version <= 1 then link == before
    else if exists i :: FirstBelow(last, m, sid, i) then
      exists i :: FirstBelow(last, m, sid, i) && link == Some(last.refs[MsgKey(m.project, m.refs[i])])
    else if name.Some? && exists y :: Similar(last, m.project, name.value, y, sid) then
      link.Some? && MostSimilar(last, m.project, name.value, link.value, sid)
    else link == before
  }

  // ---------------------------------------------------------------- what the code looks up

  lemma {:induction false} SomeFirst(db: Tables, m: Mail, sid: int, n: nat) returns (i: nat)
    requires sid in db.series && n < |m.refs| && LeadsBelow(db, m.project, m.refs[n], sid)
    ensures FirstBelow(db, m, sid, i)
  {
    if j :| 0 <= j < n && LeadsBelow(db, m.project, m.refs[j], sid) {
      i := SomeFirst(db, m, sid, j);
    } else {
      i := n;
    }
  }

  /** Linking changes the one column, so that references lead where they led before. */
  lemma LinkKeepsReferences(db: Tables, project: int, sid: int, r: Option<int>, id: string)
    requires sid in db.series && (r.Some? ==> r.value != sid)
    ensures LeadsBelow(Linked(db, sid, r), project, id, sid) <==> RefersToPrevious(db, project, id, sid)
    ensures Linked(db, sid, r).refs == db.refs
  {
  }

  /** And names are what they were. */
  lemma LinkKeepsNames(db: Tables, project: int, sid: int, r: Option<int>, y: int)
    requires sid in db.series
    ensures
      var last, cs := Linked(db, sid, r), Candidates(db, project, db.series[sid].submitter, db.series[sid].version - 1);
      && (NamedBelow(last, project, y, sid) <==> y in cs && db.series[y].name.Some?)
      && (y in cs ==>
           y in last.series && last.series[y].name == db.series[y].name && last.series[y].date == DateOf(db, y))
  {
  }

  /** A name that strips to nothing is like no other. */
  lemma ScoreIsLikeness(db: Tables, name: string, y: int)
    requires y in db.series && db.series[y].name.Some?
    ensures Score(db, name, y) == Likeness(name, db.series[y].name.value)
    ensures StripPrefixes(name) == "" ==> Likeness(name, db.series[y].name.value) == 0.0
  {
  }

  lemma ScoreInTables(db: Tables, project: int, sid: int, r: Option<int>, name: string, y: int)
    requires sid in db.series
    ensures
      var last, cs := Linked(db, sid, r), Candidates(db, project, db.series[sid].submitter, db.series[sid].version - 1);
      && (Similar(last, project, name, y, sid) <==> y in cs && Score(db, name, y) >= THRESHOLD)
      && (Similar(last, project, name, y, sid) ==> Score(db, name, y) == Likeness(name, last.series[y].name.value))
  {
    LinkKeepsNames(db, project, sid, r, y);
    if y in db.series && db.series[y].name.Some? {
      ScoreIsLikeness(db, name, y);
    }
  }

  /** The second tier: the best name is the most similar one. */
  lemma BestIsMostSimilar(db: Tables, project: int, sid: int, r: Option<int>, name: string)
    requires sid in db.series
    requires BestByName(db, Candidates(db, project, db.series[sid].submitter, db.series[sid].version - 1), name, r)
    ensures var last := Linked(db, sid, r);
      && (r.Some? <==> exists y :: Similar(last, project, name, y, sid))
      && (r.Some? ==> MostSimilar(last, project, name, r.value, sid))
  {
    var last := Linked(db, sid, r);
    forall y ensures ScoreFits(db, last, project, sid, name, y) {
      ScoreInTables(db, project, sid, r, name, y);
      LinkKeepsNames(db, project, sid, r, y);
    }
    if r.Some? {
      assert ScoreFits(db, last, project, sid, name, r.value);
      forall x | Similar(last, project, name, x, sid) ensures ScoreFits(db, last, project, sid, name, x) {}
    } else {
      forall y ensures !Similar(last, project, name, y, sid) {
        assert ScoreFits(db, last, project, sid, name, y);
      }
    }
  }

  ghost predicate ScoreFits(db: Tables, last: Tables, project: int, sid: int, name: string, y: int)
    requires sid in db.series && sid in last.series
  {
    var cs := Candidates(db, project, db.series[sid].submitter, db.series[sid].version - 1);
    && (Similar(last, project, name, y, sid) <==> y in cs && Score(db, name, y) >= THRESHOLD)
    && (Similar(last, project, name, y, sid) ==>
         && Score(db, name, y) == Likeness(name, last.series[y].name.value)
         && last.series[y].date == DateOf(db, y))
  }

  /** What linkPreviousSeries chooses, told from the tables after the link. */
  ghost predicate ChosenAs(last: Tables, m: Mail, sid: int, name: Option<string>, r: Option<int>)
    requires sid in last.series
  {
    if exists i :: FirstBelow(last, m, sid, i) then
      exists i :: FirstBelow(last, m, sid, i) && r == Some(last.refs[MsgKey(m.project, m.refs[i])])
    else if name.Some? && exists y :: Similar(last, m.project, name.value, y, sid) then
      r.Some? && MostSimilar(last, m.project, name.value, r.value, sid)
    else r.None?
  }

  lemma ChosenByReference(db: Tables, m: Mail, sid: int, name: Option<string>, r: Option<int>, i: nat)
    requires sid in db.series && db.series[sid].version > 1 && PreviousFor(db, m.project, m.refs, sid, name, r)
    requires i < |m.refs| && RefersToPrevious(db, m.project, m.refs[i], sid)
    ensures ChosenAs(Linked(db, sid, r), m, sid, name, r)
  {
    var last := Linked(db, sid, r);
    var k :| 0 <= k < |m.refs| && RefersToPrevious(db, m.project, m.refs[k], sid) &&
      (forall j :: 0 <= j < k ==> !RefersToPrevious(db, m.project, m.refs[j], sid)) &&
      r == Some(db.refs[MsgKey(m.project, m.refs[k])]);
    forall j | 0 <= j < |m.refs|
      ensures LeadsBelow(last, m.project, m.refs[j], sid) <==> RefersToPrevious(db, m.project, m.refs[j], sid) {
      LinkKeepsReferences(db, m.project, sid, r, m.refs[j]);
    }
    LinkKeepsReferences(db, m.project, sid, r, "");
    assert FirstBelow(last, m, sid, k);
  }

  lemma NothingIsLikeNothing(last: Tables, project: int, name: string, sid: int)
    requires sid in last.series && StripPrefixes(name) == ""
    ensures forall y :: !Similar(last, project, name, y, sid)
  {
    forall y ensures !Similar(last, project, name, y, sid) {
      if NamedBelow(last, project, y, sid) {
        ScoreIsLikeness(last, name, y);
      }
    }
  }

  lemma ChosenByName(db: Tables, m: Mail, sid: int, name: Option<string>, r: Option<int>)
    requires sid in db.series && db.series[sid].version > 1 && PreviousFor(db, m.project, m.refs, sid, name, r)
    requires forall i :: 0 <= i < |m.refs| ==> !RefersToPrevious(db, m.project, m.refs[i], sid)
    ensures ChosenAs(Linked(db, sid, r), m, sid, name, r)
  {
    var last := Linked(db, sid, r);
    forall j | 0 <= j < |m.refs| ensures !LeadsBelow(last, m.project, m.refs[j], sid) {
      LinkKeepsReferences(db, m.project, sid, r, m.refs[j]);
    }
    assert forall i :: !FirstBelow(last, m, sid, i);
    if name.Some? {
      if StripPrefixes(name.value) == "" {
        NothingIsLikeNothing(last, m.project, name.value, sid);
      } else {
        BestIsMostSimilar(db, m.project, sid, r, name.value);
      }
    }
  }

  lemma Chosen(db: Tables, m: Mail, sid: int, name: Option<string>, r: Option<int>)
    requires sid in db.series && db.series[sid].version > 1 && PreviousFor(db, m.project, m.refs, sid, name, r)
    ensures ChosenAs(Linked(db, sid, r), m, sid, name, r)
  {
    if i :| 0 <= i < |m.refs| && RefersToPrevious(db, m.project, m.refs[i], sid) {
      ChosenByReference(db, m, sid, name, r, i);
    } else {
      ChosenByName(db, m, sid, name, r);
    }
  }

  // ---------------------------------------------------------------- the link of a mail

  /** Before linkPreviousSeries the link is that of the row the mail started from. */
  lemma UnlinkedKeepsLink(db: Tables, s: Step)
    requires s.found.Some? ==> s.found.value in db.series
    ensures Unlinked(db, s).series[Target(db, s.found)].previous == BaseRow(db, s).previous
  {
  }

  /** The version of the series is that of the mail. */
  lemma VersionIsMails(db: Tables, s: Step)
    requires Inv(db) && StepOk(db, s) && !Duplicate(db, s)
    ensures Unlinked(db, s).series[Target(db, s.found)].version == s.mail.version
  {
    TargetFits(db, s);
    UnlinkedGoes(db, s);
  }

  lemma ComparedIsInMemory(db: Tables, s: Step)
    requires s.found.Some? ==> s.found.value in db.series
    ensures NameCompared(db, s, Linked(Unlinked(db, s), Target(db, s.found), s.previous)) == NameInMemory(db, s)
  {
    if s.CoverStep? {
      CoverRowResolved(db, s);
    }
  }

  /**
   A mail of version 2 or above links its series to the series that the first suitable id leads to, else to
   the one with the most similar name if that is similar enough, and else leaves the link as it was.
   */
  lemma LinkIsMade(db: Tables, s: Step)
    requires Inv(db) && StepOk(db, s) && !Duplicate(db, s)
    ensures Target(db, s.found) in After(db, s).series && LinkedAs(db, s, After(db, s))
  {
    var db1, sid := Unlinked(db, s), Target(db, s.found);
    UnlinkedKeepsLink(db, s);
    if s.mail.version > 1 {
      VersionIsMails(db, s);
      Chosen(db1, s.mail, sid, NameInMemory(db, s), s.previous);
      ComparedIsInMemory(db, s);
    }
  }

  /** Equal names, prefixes aside, are as like as can be. */
  lemma SameNames(name: string, other: string)
    ensures Likeness(name, other) <= 1.0
    ensures StripPrefixes(StripPrefixes(name)) == StripPrefixes(StripPrefixes(other)) != "" ==>
            Likeness(name, other) == 1.0
  {
    var a, b := ToLower(StripPrefixes(StripPrefixes(name))), ToLower(StripPrefixes(StripPrefixes(other)));
    RatioIsSimilarity(a, b);
  }

  /** What a first patch without a series to join leaves: a new row in its name, and the others as they were. */
  lemma OpenedRow(db: Tables, s: Step)
    requires Inv(db) && StepOk(db, s) && !Duplicate(db, s) && s.PatchStep? && s.mail.number == 1 && s.found.None?
    ensures
      var last, m := After(db, s), s.mail;
      && db.nextSeries in last.series
      && last.series[db.nextSeries].(previous := None) ==
           Series(m.project, m.author, m.version, m.total, m.date, None, None, Some(m.subject))
      && forall y :: y in db.series ==> y in last.series && last.series[y] == db.series[y]
  {
    PatchEffect(db, s);
  }

  /**
   A series sent again as the next version, under the same name and without references, is linked: to the
   latest of the series whose names are no less like it than the same name is.
   */
  lemma RepostIsLinked(db: Tables, s: Step, y: int)
    requires Inv(db) && StepOk(db, s) && !Duplicate(db, s)
    requires s.PatchStep? && s.mail.number == 1 && s.mail.version > 1 && s.mail.refs == [] && s.found.None?
    requires y in db.series && db.series[y].name.Some? && db.series[y].project == s.mail.project
    requires db.series[y].submitter == s.mail.author && db.series[y].version == s.mail.version - 1
    requires StripPrefixes(StripPrefixes(db.series[y].name.value)) == StripPrefixes(StripPrefixes(s.mail.subject)) != ""
    ensures
      var last, sid := After(db, s), db.nextSeries;
      && sid in last.series && last.series[sid].previous.Some?
      && var z := last.series[sid].previous.value;
         && NamedBelow(last, s.mail.project, z, sid) && Likeness(s.mail.subject, last.series[z].name.value) == 1.0
         && db.series[y].date <= last.series[z].date
  {
    var last, sid := After(db, s), db.nextSeries;
    LinkIsMade(db, s);
    OpenedRow(db, s);
    SameNames(s.mail.subject, db.series[y].name.value);
    assert Similar(last, s.mail.project, s.mail.subject, y, sid);
    assert forall i :: !FirstBelow(last, s.mail, sid, i);
    var z := last.series[sid].previous.value;
    SameNames(s.mail.subject, last.series[z].name.value);
  }
}
