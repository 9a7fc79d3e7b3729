/**
 Groups of related patches: the tables patch (the columns project_id, name and related_id) and
 patch_relation, and updateRelated of pkg/api/util.go as a change of both.
 */
module Relations {
  import opened Wrappers

  /** The columns of a patch that matter here. */
  datatype Row = Row(project: int, name: string, related: Option<int>)

  /** Patches by id, the ids in patch_relation, and the id its next row gets. */
  datatype Tables = Tables(rows: map<int, Row>, groups: set<int>, next: int)

  function Members(rows: map<int, Row>, g: int): set<int> {
    set id | id in rows && rows[id].related == Some(g)
  }

  /** Every related_id points at an existing relation, every relation has two members or more. */
  predicate WellFormed(t: Tables) {
    && (forall id :: id in t.rows && t.rows[id].related.Some? ==> t.rows[id].related.value in t.groups)
    && (forall g :: g in t.groups ==> |Members(t.rows, g)| >= 2)
    && (forall g :: g in t.groups ==> g < t.next)
  }

  datatype Outcome = Done | NotFound(id: int) | Forbidden | Conflict

  // ---------------------------------------------------------------- the change, as a function

  function Elements(ids: seq<int>): set<int> {
    set id | id in ids
  }

  /** UPDATE patch SET related_id = g WHERE id IN ids. */
  function SetGroup(rows: map<int, Row>, ids: set<int>, g: Option<int>): map<int, Row> {
    map id | id in rows :: if id in ids then rows[id].(related := g) else rows[id]
  }

  lemma Stacked(rows: map<int, Row>, a: set<int>, b: set<int>, g: Option<int>)
    ensures SetGroup(SetGroup(rows, a, g), b, g) == SetGroup(rows, a + b, g)
  {
  }

  lemma Overwritten(rows: map<int, Row>, a: set<int>, g: Option<int>, h: Option<int>)
    ensures SetGroup(SetGroup(rows, a, g), a, h) == SetGroup(rows, a, h)
  {
  }

  /** Goes through the listed patches; cur is the group found so far. */
  function Scan(rows: map<int, Row>, maintained: set<int>, cur: Option<int>, ids: seq<int>): (Outcome, Option<int>)
    decreases |ids|
  {
    if ids == [] then (Done, cur)
    else if ids[0] !in rows then (NotFound(ids[0]), cur)
    else if rows[ids[0]].project !in maintained then (Forbidden, cur)
    else
      var g := rows[ids[0]].related;
      if g.Some? && cur.Some? && g != cur then (Conflict, cur)
      else Scan(rows, maintained, if cur.None? then g else cur, ids[1..])
  }

  /** The patch and the listed ones share the group found, or a group of their own. */
  function Joined(t: Tables, id: int, ids: seq<int>, cur: Option<int>): Tables {
    var all := {id} + Elements(ids);
    match cur
    case Some(g) => t.(rows := SetGroup(t.rows, all, cur))
    case None => Tables(SetGroup(t.rows, all, Some(t.next)), t.groups + {t.next}, t.next + 1)
  }

  function Left(t: Tables, id: int): Tables
    requires id in t.rows
  {
    match t.rows[id].related
    case None => t
    case Some(g) =>
      var rows := SetGroup(t.rows, {id}, None);
      if |Members(rows, g)| < 2 then Tables(SetGroup(rows, Members(rows, g), None), t.groups - {g}, t.next)
      else t.(rows := rows)
  }

  function Updated(t: Tables, maintained: set<int>, id: int, ids: seq<int>): (Outcome, Tables)
    requires id in t.rows
  {
    if ids == [] then (Done, Left(t, id))
    else
      var (outcome, cur) := Scan(t.rows, maintained, t.rows[id].related, ids);
      if outcome.Done? then (Done, Joined(t, id, ids, cur)) else (outcome, t)
  }

  // ---------------------------------------------------------------- the change, in place

  /** The patch as the request handler holds it. */
  class Patch {
    const id: int
    var relatedID: Option<int>

    constructor (id: int, relatedID: Option<int>)
      ensures this.id == id && this.relatedID == relatedID
    {
      this.id := id;
      this.relatedID := relatedID;
    }
  }

  class Database {
    var rows: map<int, Row>
    var groups: set<int>
    var next: int

    ghost function Contents(): Tables
      reads this
    {
      Tables(rows, groups, next)
    }

    constructor (rows: map<int, Row>, groups: set<int>, next: int)
      ensures Contents() == Tables(rows, groups, next)
    {
      this.rows := rows;
      this.groups := groups;
      this.next := next;
    }

    /** UPDATE patch SET related_id = g WHERE id = id: no row, no change. */
    method SetRelated(id: int, g: Option<int>)
      modifies this`rows
      ensures rows == SetGroup(old(rows), {id}, g)
    {
      if id in rows {
        rows := rows[id := rows[id].(related := g)];
      }
      assert rows == SetGroup(old(rows), {id}, g);
    }

    /** The branch for an empty list: the patch leaves its group, and a group of one is dissolved. */
    method Leave(patch: Patch)
      requires patch.id in rows && rows[patch.id].related == patch.relatedID
      modifies this`rows, this`groups, patch
      ensures Contents() == Left(old(Contents()), patch.id)
      ensures patch.relatedID == rows[patch.id].related
    {
      if patch.relatedID.Some? {
        var g := patch.relatedID.value;
        SetRelated(patch.id, None);
        patch.relatedID := None;
        var remaining := |Members(rows, g)|;
        if remaining < 2 {
          rows := map id | id in rows :: if rows[id].related == Some(g) then rows[id].(related := None) else rows[id];
          groups := groups - {g};
        }
      }
    }

    /** The first loop: every listed patch is checked, the first group found becomes the patch's own. */
    method CheckAll(maintained: set<int>, patch: Patch, relatedIDs: seq<int>) returns (e: Outcome)
      requires patch.id in rows && rows[patch.id].related == patch.relatedID
      modifies this`rows, patch
      ensures (e, patch.relatedID) == Scan(old(rows), maintained, old(patch.relatedID), relatedIDs)
      ensures rows == SetGroup(old(rows), {patch.id}, patch.relatedID)
    {
      ghost var rows0 := rows;
      for k := 0 to |relatedIDs|
        invariant Scan(rows0, maintained, old(patch.relatedID), relatedIDs) ==
                  Scan(rows0, maintained, patch.relatedID, relatedIDs[k..])
        invariant rows == SetGroup(rows0, {patch.id}, patch.relatedID)
        invariant old(patch.relatedID).Some? ==> patch.relatedID == old(patch.relatedID)
      {
        var pid := relatedIDs[k];
        assert relatedIDs[k..][1..] == relatedIDs[k + 1..];
        if pid !in rows {
          return NotFound(pid);
        }
        var p := rows[pid];
        if p.project !in maintained {
          return Forbidden;
        }
        if p.related.Some? && patch.relatedID.Some? && p.related != patch.relatedID {
          return Conflict;
        }
        if p.related.Some? && patch.relatedID.None? {
          SetRelated(patch.id, p.related);
          patch.relatedID := p.related;
        }
      }
      return Done;
    }

    /** The last loop: every listed patch gets the group. */
    method AssignAll(g: int, relatedIDs: seq<int>)
      modifies this`rows
      ensures rows == SetGroup(old(rows), Elements(relatedIDs), Some(g))
    {
      ghost var rows0 := rows;
      for k := 0 to |relatedIDs|
        invariant rows == SetGroup(rows0, Elements(relatedIDs[..k]), Some(g))
      {
        SetRelated(relatedIDs[k], Some(g));
        assert relatedIDs[..k + 1] == relatedIDs[..k] + [relatedIDs[k]];
        assert Elements(relatedIDs[..k + 1]) == Elements(relatedIDs[..k]) + {relatedIDs[k]};
      }
      assert relatedIDs[..|relatedIDs|] == relatedIDs;
    }

    /** Everything happens in one transaction: a failed call is rolled back. */
    method UpdateRelated(maintained: set<int>, patch: Patch, relatedIDs: seq<int>) returns (e: Outcome)
      requires patch.id in rows && rows[patch.id].related == patch.relatedID
      modifies this, patch
      ensures (e, Contents()) == Updated(old(Contents()), maintained, patch.id, relatedIDs)
      ensures e.Done? ==> patch.relatedID == rows[patch.id].related
    {
      if relatedIDs == [] {
        Leave(patch);
        return Done;
      }
      var rows0 := rows;
      e := CheckAll(maintained, patch, relatedIDs);
      ghost var cur := patch.relatedID;
      if !e.Done? {
        rows := rows0;
        return;
      }
      if patch.relatedID.None? {
        patch.relatedID := Some(next);
        groups := groups + {next};
        next := next + 1;
        SetRelated(patch.id, patch.relatedID);
      }
      AssignAll(patch.relatedID.value, relatedIDs);
      Overwritten(rows0, {patch.id}, cur, patch.relatedID);
      Stacked(rows0, {patch.id}, Elements(relatedIDs), patch.relatedID);
    }
  }
}
