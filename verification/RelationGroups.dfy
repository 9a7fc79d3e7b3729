/**
 What updateRelated keeps: relation groups stay well formed over any run, two groups are never
 merged, one call changes one group at most, and leaving undoes joining.
 */
module RelationGroups {
  import opened Wrappers
  import opened FiniteSets
  import opened Relations

  // ---------------------------------------------------------------- when a call succeeds

  function GroupOf(rows: map<int, Row>, id: int): Option<int> {
    if id in rows then rows[id].related else None
  }

  predicate SameOrNone(g: Option<int>, h: Option<int>) {
    g.Some? && h.Some? ==> g == h
  }

  /** No two of the patches are in different groups. */
  predicate Compatible(rows: map<int, Row>, ids: seq<int>) {
    forall i, j :: 0 <= i < j < |ids| ==> SameOrNone(GroupOf(rows, ids[i]), GroupOf(rows, ids[j]))
  }

  predicate AllIn(rows: map<int, Row>, ids: seq<int>) {
    forall i :: 0 <= i < |ids| ==> ids[i] in rows
  }

  predicate AllMaintained(rows: map<int, Row>, maintained: set<int>, ids: seq<int>) {
    forall i :: 0 <= i < |ids| ==> ids[i] in rows ==> rows[ids[i]].project in maintained
  }

  /** cur agrees with the groups of all. */
  predicate Fits(rows: map<int, Row>, cur: Option<int>, ids: seq<int>) {
    forall i :: 0 <= i < |ids| ==> SameOrNone(cur, GroupOf(rows, ids[i]))
  }

  /** The scan passes exactly when all patches exist, all are maintained and no two groups differ. */
  lemma {:induction false} ScanPasses(rows: map<int, Row>, maintained: set<int>, cur: Option<int>, ids: seq<int>)
    ensures Scan(rows, maintained, cur, ids).0.Done? <==>
            AllIn(rows, ids) && AllMaintained(rows, maintained, ids) && Compatible(rows, ids) && Fits(rows, cur, ids)
    decreases |ids|
  {
    if ids != [] {
      var rest := ids[1..];
      assert forall i :: 0 <= i < |rest| ==> rest[i] == ids[i + 1];
      assert forall i :: 1 <= i < |ids| ==> ids[i] == rest[i - 1];
      if ids[0] in rows && rows[ids[0]].project in maintained && SameOrNone(cur, GroupOf(rows, ids[0])) {
        ScanPasses(rows, maintained, if cur.None? then rows[ids[0]].related else cur, rest);
      }
    }
  }

  /** The group found is the one group that the patches have among them. */
  lemma {:induction false} ScanFindsGroup(rows: map<int, Row>, maintained: set<int>, cur: Option<int>, ids: seq<int>)
    requires Scan(rows, maintained, cur, ids).0.Done?
    ensures var g := Scan(rows, maintained, cur, ids).1;
      && Fits(rows, g, ids)
      && (cur.Some? ==> g == cur)
      && (g.None? ==> forall i :: 0 <= i < |ids| ==> GroupOf(rows, ids[i]).None?)
      && (g.Some? && cur.None? ==> exists i :: 0 <= i < |ids| && GroupOf(rows, ids[i]) == g)
    decreases |ids|
  {
    if ids != [] {
      var rest := ids[1..];
      var cur1 := if cur.None? then rows[ids[0]].related else cur;
      ScanFindsGroup(rows, maintained, cur1, rest);
      assert forall i :: 0 <= i < |rest| ==> rest[i] == ids[i + 1];
      assert forall i :: 1 <= i < |ids| ==> ids[i] == rest[i - 1];
    }
  }

  /** A non-empty call succeeds exactly when it may: otherwise nothing at all changes. */
  lemma SucceedsOrChangesNothing(t: Tables, maintained: set<int>, id: int, ids: seq<int>)
    requires id in t.rows && ids != []
    ensures Updated(t, maintained, id, ids).0.Done? <==>
            AllIn(t.rows, ids) && AllMaintained(t.rows, maintained, ids) && Compatible(t.rows, [id] + ids)
    ensures !Updated(t, maintained, id, ids).0.Done? ==> Updated(t, maintained, id, ids).1 == t
  {
    ScanPasses(t.rows, maintained, t.rows[id].related, ids);
    var all := [id] + ids;
    assert forall j :: 0 <= j < |ids| ==> ids[j] == all[j + 1];
    if Compatible(t.rows, all) {
      forall i | 0 <= i < |ids| ensures SameOrNone(t.rows[id].related, GroupOf(t.rows, ids[i])) {
        assert all[0] == id && all[i + 1] == ids[i];
      }
      forall i, j | 0 <= i < j < |ids| ensures SameOrNone(GroupOf(t.rows, ids[i]), GroupOf(t.rows, ids[j])) {
        assert all[i + 1] == ids[i] && all[j + 1] == ids[j];
      }
    }
  }

  /** The patches listed before the k-th are fine, and the k-th is not: why, in the order of the checks. */
  predicate FailsAt(t: Tables, maintained: set<int>, id: int, ids: seq<int>, k: nat, outcome: Outcome)
    requires k < |ids|
  {
    && AllIn(t.rows, ids[..k]) && AllMaintained(t.rows, maintained, ids[..k]) && Compatible(t.rows, [id] + ids[..k])
    && (outcome == NotFound(ids[k]) <==> ids[k] !in t.rows)
    && (outcome == Forbidden <==> ids[k] in t.rows && t.rows[ids[k]].project !in maintained)
    && (outcome == Conflict <==> ids[k] in t.rows && t.rows[ids[k]].project in maintained &&
                                 !Compatible(t.rows, [id] + ids[..k + 1]))
  }

  lemma {:induction false} ScanFailsAt(rows: map<int, Row>, maintained: set<int>, cur: Option<int>, ids: seq<int>)
    returns (k: nat)
    requires !Scan(rows, maintained, cur, ids).0.Done?
    ensures k < |ids| && Scan(rows, maintained, cur, ids[..k]).0.Done?
    ensures Scan(rows, maintained, cur, ids) == Scan(rows, maintained, cur, ids[..k + 1])
    decreases |ids|
  {
    var g := if ids[0] in rows then rows[ids[0]].related else None;
    if ids[0] !in rows || rows[ids[0]].project !in maintained || (g.Some? && cur.Some? && g != cur) {
      k := 0;
      assert ids[..1] == [ids[0]];
    } else {
      var rest := ids[1..];
      var j := ScanFailsAt(rows, maintained, if cur.None? then g else cur, rest);
      k := j + 1;
      assert ids[..k][1..] == rest[..j] && ids[..k + 1][1..] == rest[..j + 1];
    }
  }

  lemma {:induction false} ScanOneMore(rows: map<int, Row>, maintained: set<int>, cur: Option<int>, ids: seq<int>,
                                       x: int)
    requires Scan(rows, maintained, cur, ids).0.Done?
    ensures Scan(rows, maintained, cur, ids + [x]) ==
            Scan(rows, maintained, Scan(rows, maintained, cur, ids).1, [x])
    decreases |ids|
  {
    if ids == [] {
      assert ids + [x] == [x];
    } else {
      var g := rows[ids[0]].related;
      ScanOneMore(rows, maintained, if cur.None? then g else cur, ids[1..], x);
      assert (ids + [x])[1..] == ids[1..] + [x];
    }
  }

  /** What a failing scan answers is about the last patch it came to. */
  lemma ScanAnswers(rows: map<int, Row>, maintained: set<int>, cur: Option<int>, ids: seq<int>, x: int)
    requires Scan(rows, maintained, cur, ids).0.Done? && !Scan(rows, maintained, cur, ids + [x]).0.Done?
    ensures var outcome := Scan(rows, maintained, cur, ids + [x]).0;
      && (outcome == NotFound(x) <==> x !in rows)
      && (outcome == Forbidden <==> x in rows && rows[x].project !in maintained)
      && (outcome == Conflict <==> x in rows && rows[x].project in maintained)
  {
    ScanOneMore(rows, maintained, cur, ids, x);
  }

  /** A call that fails answers for the first listed patch that is not there, not maintained, or in another group. */
  lemma AnswersFirstFailure(t: Tables, maintained: set<int>, id: int, ids: seq<int>) returns (k: nat)
    requires id in t.rows && !Updated(t, maintained, id, ids).0.Done?
    ensures k < |ids| && FailsAt(t, maintained, id, ids, k, Updated(t, maintained, id, ids).0)
  {
    var cur := t.rows[id].related;
    k := ScanFailsAt(t.rows, maintained, cur, ids);
    var front := ids[..k];
    assert ids[..k + 1] == front + [ids[k]];
    ScanAnswers(t.rows, maintained, cur, front, ids[k]);
    SucceedsOrChangesNothing(t, maintained, id, ids[..k + 1]);
    if front != [] {
      SucceedsOrChangesNothing(t, maintained, id, front);
    }
    if ids[k] in t.rows && t.rows[ids[k]].project in maintained {
      assert AllIn(t.rows, ids[..k + 1]) && AllMaintained(t.rows, maintained, ids[..k + 1]);
    }
  }

  // ---------------------------------------------------------------- groups before and after

  lemma MembersAfter(rows: map<int, Row>, ids: set<int>, g: Option<int>, h: int)
    ensures Members(SetGroup(rows, ids, g), h) ==
            if g == Some(h) then Members(rows, h) + (set id | id in ids && id in rows) else Members(rows, h) - ids
  {
  }

  lemma AtLeastTwo(a: set<int>, x: int, y: int)
    requires x in a && y in a && x != y
    ensures |a| >= 2
  {
    SubsetSize({x, y}, a);
  }

  lemma Single(a: set<int>, x: int)
    requires a == {x}
    ensures |a| == 1
  {
  }

  /** The one group that a successful non-empty call can touch. */
  function Target(t: Tables, maintained: set<int>, id: int, ids: seq<int>): int
    requires id in t.rows
  {
    match Scan(t.rows, maintained, t.rows[id].related, ids).1
    case Some(g) => g
    case None => t.next
  }

  /** After joining the target holds what it held and the listed patches, every other group is as it was. */
  lemma JoinedGroups(t: Tables, maintained: set<int>, id: int, ids: seq<int>, h: int)
    requires WellFormed(t) && id in t.rows && ids != [] && Updated(t, maintained, id, ids).0.Done?
    ensures var g, after := Target(t, maintained, id, ids), Updated(t, maintained, id, ids).1;
      Members(after.rows, h) == if h == g then Members(t.rows, g) + {id} + Elements(ids) else Members(t.rows, h)
  {
    ScanFindsGroup(t.rows, maintained, t.rows[id].related, ids);
    ScanPasses(t.rows, maintained, t.rows[id].related, ids);
    var g := Target(t, maintained, id, ids);
    MembersAfter(t.rows, {id} + Elements(ids), Some(g), h);
    if h != g {
      forall x | x in {id} + Elements(ids) ensures x !in Members(t.rows, h) {
        if x in ids {
          var i :| 0 <= i < |ids| && ids[i] == x;
          assert SameOrNone(Scan(t.rows, maintained, t.rows[id].related, ids).1, GroupOf(t.rows, ids[i]));
        }
      }
    }
  }

  /** Some listed patch is another one than the patch itself. */
  predicate NamesAnother(id: int, ids: seq<int>) {
    exists i :: 0 <= i < |ids| && ids[i] != id
  }

  /** No patch is in a group that does not exist yet. */
  lemma NextIsEmpty(t: Tables)
    requires WellFormed(t)
    ensures Members(t.rows, t.next) == {}
  {
    forall x ensures x !in Members(t.rows, t.next) {
      assert x in t.rows && t.rows[x].related.Some? ==> t.rows[x].related.value in t.groups;
    }
  }

  /** The target ends with two members or more exactly when another patch is listed or it was there before. */
  lemma TargetSize(t: Tables, maintained: set<int>, id: int, ids: seq<int>)
    requires WellFormed(t) && id in t.rows && ids != [] && Updated(t, maintained, id, ids).0.Done?
    ensures |Members(Updated(t, maintained, id, ids).1.rows, Target(t, maintained, id, ids))| >= 2 <==>
            NamesAnother(id, ids) || t.rows[id].related.Some?
  {
    var g := Target(t, maintained, id, ids);
    JoinedGroups(t, maintained, id, ids, g);
    ScanFindsGroup(t.rows, maintained, t.rows[id].related, ids);
    var all := Members(t.rows, g) + {id} + Elements(ids);
    if NamesAnother(id, ids) {
      var i :| 0 <= i < |ids| && ids[i] != id;
      AtLeastTwo(all, id, ids[i]);
    } else if t.rows[id].related.Some? {
      SubsetSize(Members(t.rows, g), all);
    } else {
      assert Elements(ids) == {id};
      NextIsEmpty(t);
      Single(all, id);
    }
  }

  lemma JoinedRowsPoint(t: Tables, maintained: set<int>, id: int, ids: seq<int>)
    requires WellFormed(t) && id in t.rows && ids != [] && Updated(t, maintained, id, ids).0.Done?
    ensures var g, after := Target(t, maintained, id, ids), Updated(t, maintained, id, ids).1;
      && after.groups == t.groups + {g} && g < after.next && t.next <= after.next
      && forall x :: x in after.rows && after.rows[x].related.Some? ==> after.rows[x].related.value in after.groups
  {
    ScanFindsGroup(t.rows, maintained, t.rows[id].related, ids);
  }

  /**
   A successful call with a non-empty list keeps the groups well formed exactly when the list names
   another patch or the patch is in a group already. (A patch listed as related to itself alone gets
   a group of one.)
   */
  lemma JoinKeepsWellFormed(t: Tables, maintained: set<int>, id: int, ids: seq<int>)
    requires WellFormed(t) && id in t.rows && ids != [] && Updated(t, maintained, id, ids).0.Done?
    ensures WellFormed(Updated(t, maintained, id, ids).1) <==> NamesAnother(id, ids) || t.rows[id].related.Some?
  {
    var g, after := Target(t, maintained, id, ids), Updated(t, maintained, id, ids).1;
    JoinedRowsPoint(t, maintained, id, ids);
    TargetSize(t, maintained, id, ids);
    forall h | h != g ensures Members(after.rows, h) == Members(t.rows, h) {
      JoinedGroups(t, maintained, id, ids, h);
    }
  }

  // ---------------------------------------------------------------- leaving

  lemma LeftGroups(t: Tables, id: int, h: int)
    requires id in t.rows
    ensures var before := Members(t.rows, h);
      Members(Left(t, id).rows, h) ==
      if t.rows[id].related != Some(h) then before else if |before - {id}| < 2 then {} else before - {id}
  {
    match t.rows[id].related {
      case None =>
      case Some(g) =>
        var rows := SetGroup(t.rows, {id}, None);
        MembersAfter(t.rows, {id}, None, h);
        MembersAfter(t.rows, {id}, None, g);
        MembersAfter(rows, Members(rows, g), None, h);
    }
  }

  /** The rows after leaving point at relations that are still there. */
  lemma LeftRowsPoint(t: Tables, id: int)
    requires WellFormed(t) && id in t.rows
    ensures var after := Left(t, id);
      forall x :: x in after.rows && after.rows[x].related.Some? ==> after.rows[x].related.value in after.groups
  {
    if t.rows[id].related.Some? {
      MembersAfter(t.rows, {id}, None, t.rows[id].related.value);
    }
  }

  /** The relations that are left have two members or more. */
  lemma LeftGroupsHaveTwo(t: Tables, id: int, h: int)
    requires WellFormed(t) && id in t.rows && h in Left(t, id).groups
    ensures h in t.groups && |Members(Left(t, id).rows, h)| >= 2
  {
    LeftGroups(t, id, h);
    if t.rows[id].related == Some(h) {
      MembersAfter(t.rows, {id}, None, h);
    }
  }

  lemma LeaveKeepsWellFormed(t: Tables, id: int)
    requires WellFormed(t) && id in t.rows
    ensures WellFormed(Left(t, id))
  {
    LeftRowsPoint(t, id);
    forall h | h in Left(t, id).groups ensures h in t.groups && |Members(Left(t, id).rows, h)| >= 2 {
      LeftGroupsHaveTwo(t, id, h);
    }
  }

  // ---------------------------------------------------------------- never merged, one at a time

  /** Two patches in different groups are not in one group after any call. */
  lemma GroupsNeverMerge(t: Tables, maintained: set<int>, id: int, ids: seq<int>, a: int, b: int)
    requires WellFormed(t) && id in t.rows && a in t.rows && b in t.rows
    requires t.rows[a].related.Some? && t.rows[b].related.Some? && t.rows[a].related != t.rows[b].related
    ensures var rows := Updated(t, maintained, id, ids).1.rows;
      a in rows && b in rows && (rows[a].related.Some? ==> rows[a].related != rows[b].related)
  {
    var after := Updated(t, maintained, id, ids).1;
    if ids != [] && Updated(t, maintained, id, ids).0.Done? {
      var g, h := t.rows[a].related.value, t.rows[b].related.value;
      JoinedGroups(t, maintained, id, ids, g);
      JoinedGroups(t, maintained, id, ids, h);
      assert a in Members(t.rows, g) && b in Members(t.rows, h);
      assert a in Members(after.rows, g) && b in Members(after.rows, h);
    } else if ids == [] {
      LeftGroups(t, id, t.rows[a].related.value);
      LeftGroups(t, id, t.rows[b].related.value);
    }
  }

  /** One call changes the members of one group at most. */
  lemma OneGroupChanges(t: Tables, maintained: set<int>, id: int, ids: seq<int>) returns (g: int)
    requires WellFormed(t) && id in t.rows
    ensures forall h :: h != g ==> Members(Updated(t, maintained, id, ids).1.rows, h) == Members(t.rows, h)
  {
    var after := Updated(t, maintained, id, ids).1;
    g := if ids != [] then Target(t, maintained, id, ids)
         else if t.rows[id].related.Some? then t.rows[id].related.value else 0;
    forall h | h != g ensures Members(after.rows, h) == Members(t.rows, h) {
      if ids != [] && Updated(t, maintained, id, ids).0.Done? {
        JoinedGroups(t, maintained, id, ids, h);
      } else if ids == [] {
        LeftGroups(t, id, h);
      }
    }
  }

  // ---------------------------------------------------------------- any run

  datatype Call = Call(maintained: set<int>, id: int, ids: seq<int>)

  function AfterCall(t: Tables, c: Call): Tables
    requires c.id in t.rows
  {
    Updated(t, c.maintained, c.id, c.ids).1
  }

  lemma SamePatches(t: Tables, c: Call)
    requires c.id in t.rows
    ensures AfterCall(t, c).rows.Keys == t.rows.Keys
    ensures forall id :: id in t.rows ==> AfterCall(t, c).rows[id].project == t.rows[id].project
  {
  }

  /** Each call is about a patch that exists; if it lists any patches, it lists another one. */
  predicate Sound(t: Tables, calls: seq<Call>) {
    forall k :: 0 <= k < |calls| ==>
      calls[k].id in t.rows && (calls[k].ids != [] ==> NamesAnother(calls[k].id, calls[k].ids))
  }

  function AfterCalls(t: Tables, calls: seq<Call>): Tables
    requires Sound(t, calls)
    decreases |calls|
  {
    if calls == [] then t
    else
      SamePatches(t, calls[0]);
      AfterCalls(AfterCall(t, calls[0]), calls[1..])
  }

  lemma CallKeepsWellFormed(t: Tables, c: Call)
    requires WellFormed(t) && c.id in t.rows && (c.ids != [] ==> NamesAnother(c.id, c.ids))
    ensures WellFormed(AfterCall(t, c))
  {
    if c.ids == [] {
      LeaveKeepsWellFormed(t, c.id);
    } else if Updated(t, c.maintained, c.id, c.ids).0.Done? {
      JoinKeepsWellFormed(t, c.maintained, c.id, c.ids);
    }
  }

  /** Over any run of calls, failing ones included, the groups stay well formed. */
  lemma {:induction false} RunKeepsWellFormed(t: Tables, calls: seq<Call>)
    requires WellFormed(t) && Sound(t, calls)
    ensures WellFormed(AfterCalls(t, calls))
    decreases |calls|
  {
    if calls != [] {
      SamePatches(t, calls[0]);
      CallKeepsWellFormed(t, calls[0]);
      RunKeepsWellFormed(AfterCall(t, calls[0]), calls[1..]);
    }
  }

  /** The call that breaks it: a patch without a group, listed as related to itself. */
  lemma RelatedToItself()
    ensures var t := Tables(map[7 := Row(1, "", None)], {}, 1);
      && WellFormed(t)
      && Updated(t, {1}, 7, [7]).0.Done?
      && !WellFormed(Updated(t, {1}, 7, [7]).1)
  {
    var t := Tables(map[7 := Row(1, "", None)], {}, 1);
    assert WellFormed(t);
    JoinKeepsWellFormed(t, {1}, 7, [7]);
  }

  // ---------------------------------------------------------------- leaving undoes joining

  /** A patch that joins a group that was there before and leaves again leaves no trace. */
  lemma LeavingUndoesJoining(t: Tables, maintained: set<int>, id: int, ids: seq<int>)
    requires WellFormed(t) && id in t.rows && t.rows[id].related.None? && ids != []
    requires forall i :: 0 <= i < |ids| ==> GroupOf(t.rows, ids[i]).Some?
    requires Updated(t, maintained, id, ids).0.Done?
    ensures Left(Updated(t, maintained, id, ids).1, id) == t
  {
    ScanFindsGroup(t.rows, maintained, None, ids);
    var g, after := Target(t, maintained, id, ids), Updated(t, maintained, id, ids).1;
    assert GroupOf(t.rows, ids[0]) == Some(g);
    var rows := SetGroup(after.rows, {id}, None);
    forall x | x in t.rows ensures rows[x] == t.rows[x] {
      if x in ids && x != id {
        var i :| 0 <= i < |ids| && ids[i] == x;
        assert SameOrNone(Some(g), GroupOf(t.rows, ids[i]));
      }
    }
    assert rows == t.rows;
  }

  /** A pair that is made and left again is gone: both patches are free, and so is everyone else as before. */
  lemma LeavingUndoesPairing(t: Tables, maintained: set<int>, id: int, other: int)
    requires WellFormed(t) && id in t.rows && t.rows[id].related.None? && other != id
    requires GroupOf(t.rows, other).None? && Updated(t, maintained, id, [other]).0.Done?
    ensures var after := Left(Updated(t, maintained, id, [other]).1, id);
      after.rows == t.rows && after.groups == t.groups
  {
    var after := Updated(t, maintained, id, [other]).1;
    ScanFindsGroup(t.rows, maintained, None, [other]);
    ScanPasses(t.rows, maintained, None, [other]);
    assert [other][0] == other;
    assert Scan(t.rows, maintained, None, [other]).1 == None;
    var g := t.next;
    JoinedGroups(t, maintained, id, [other], g);
    NextIsEmpty(t);
    MembersAfter(after.rows, {id}, None, g);
    var rows := SetGroup(after.rows, {id}, None);
    Single(Members(rows, g), other);
  }
}
