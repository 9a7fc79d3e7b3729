/** LoadPatchRelated of pkg/db/patch.go: the other members of the group of each patch on a page. */
module RelatedPatches {
  import opened Wrappers
  import opened FiniteSets
  import opened Relations
  import opened RelationGroups

  /** A related patch as it is shown. */
  datatype PatchRef = PatchRef(id: int, name: string)

  /** A patch on the page; related is filled in. */
  datatype Loaded = Loaded(id: int, relatedID: Option<int>, related: seq<PatchRef>)

  /** The ids of all rows in the order the query lists them. */
  predicate IsListing(rows: map<int, Row>, listing: seq<int>) {
    && (forall k :: 0 <= k < |listing| ==> listing[k] in rows)
    && (forall id :: id in rows ==> id in listing)
    && (forall j, k :: 0 <= j < k < |listing| ==> listing[j] != listing[k])
  }

  /** The listed patches of group g. */
  function InGroup(rows: map<int, Row>, listing: seq<int>, g: int): seq<PatchRef> {
    if listing == [] then []
    else
      var last := listing[|listing| - 1];
      InGroup(rows, listing[..|listing| - 1], g) +
      if GroupOf(rows, last) == Some(g) then [PatchRef(last, rows[last].name)] else []
  }

  function Except(refs: seq<PatchRef>, id: int): seq<PatchRef> {
    if refs == [] then []
    else
      var last := refs[|refs| - 1];
      Except(refs[..|refs| - 1], id) + if last.id != id then [last] else []
  }

  function Related(rows: map<int, Row>, listing: seq<int>, p: Loaded): seq<PatchRef> {
    if p.relatedID.None? then [] else Except(InGroup(rows, listing, p.relatedID.value), p.id)
  }

  function Lookup(groups: map<int, seq<PatchRef>>, g: int): seq<PatchRef> {
    if g in groups then groups[g] else []
  }

  /** The ids of the relations that the patches of the page are in. */
  method CollectRelations(patches: array<Loaded>) returns (relatedIDs: seq<int>)
    ensures forall i :: 0 <= i < patches.Length && patches[i].relatedID.Some? ==>
      patches[i].relatedID.value in relatedIDs
  {
    relatedIDs := [];
    for i := 0 to patches.Length
      invariant forall j :: 0 <= j < i && patches[j].relatedID.Some? ==> patches[j].relatedID.value in relatedIDs
    {
      if patches[i].relatedID.Some? {
        relatedIDs := relatedIDs + [patches[i].relatedID.value];
      }
    }
  }

  /** Goes through the rows whose related_id is one of relatedIDs, and collects them by relation. */
  method GroupRows(rows: map<int, Row>, listing: seq<int>, relatedIDs: seq<int>)
    returns (byRelID: map<int, seq<PatchRef>>)
    requires IsListing(rows, listing)
    ensures forall g :: g in relatedIDs ==> Lookup(byRelID, g) == InGroup(rows, listing, g)
  {
    byRelID := map[];
    for k := 0 to |listing|
      invariant forall g :: g in relatedIDs ==> Lookup(byRelID, g) == InGroup(rows, listing[..k], g)
    {
      var id := listing[k];
      assert listing[..k + 1][..k] == listing[..k];
      if rows[id].related.Some? && rows[id].related.value in relatedIDs {
        var g := rows[id].related.value;
        byRelID := byRelID[g := Lookup(byRelID, g) + [PatchRef(id, rows[id].name)]];
      }
    }
    assert listing[..|listing|] == listing;
  }

  method DropSelf(all: seq<PatchRef>, id: int) returns (refs: seq<PatchRef>)
    ensures refs == Except(all, id)
  {
    refs := [];
    for k := 0 to |all|
      invariant refs == Except(all[..k], id)
    {
      assert all[..k + 1][..k] == all[..k];
      if all[k].id != id {
        refs := refs + [all[k]];
      }
    }
    assert all[..|all|] == all;
  }

  /** Fills in the related patches of a page just fetched. */
  method LoadPatchRelated(rows: map<int, Row>, listing: seq<int>, patches: array<Loaded>)
    requires IsListing(rows, listing)
    requires forall i :: 0 <= i < patches.Length ==> patches[i].related == []
    modifies patches
    ensures forall i :: 0 <= i < patches.Length ==>
      patches[i] == old(patches[i]).(related := Related(rows, listing, old(patches[i])))
  {
    var relatedIDs := CollectRelations(patches);
    var byRelID := map[];
    if relatedIDs != [] {
      byRelID := GroupRows(rows, listing, relatedIDs);
    }
    for i := 0 to patches.Length
      invariant forall j :: 0 <= j < i ==>
        patches[j] == old(patches[j]).(related := Related(rows, listing, old(patches[j])))
      invariant forall j :: i <= j < patches.Length ==> patches[j] == old(patches[j])
    {
      if patches[i].relatedID.Some? {
        var refs := DropSelf(Lookup(byRelID, patches[i].relatedID.value), patches[i].id);
        patches[i] := patches[i].(related := refs);
      }
    }
  }

  // ---------------------------------------------------------------- what is loaded

  predicate Holds(refs: seq<PatchRef>, id: int) {
    exists i :: 0 <= i < |refs| && refs[i].id == id
  }

  /** The references are those of ids, each once, with the names of their rows. */
  ghost predicate RefersTo(rows: map<int, Row>, refs: seq<PatchRef>, ids: set<int>) {
    && (forall i, j :: 0 <= i < j < |refs| ==> refs[i].id != refs[j].id)
    && (forall i :: 0 <= i < |refs| ==>
         refs[i].id in ids && refs[i].id in rows && refs[i].name == rows[refs[i].id].name)
    && (forall id :: id in ids ==> Holds(refs, id))
  }

  lemma HoldsInBoth(a: seq<PatchRef>, b: seq<PatchRef>, id: int)
    ensures Holds(a + b, id) <==> Holds(a, id) || Holds(b, id)
  {
    if Holds(a, id) {
      var i :| 0 <= i < |a| && a[i].id == id;
      assert (a + b)[i].id == id;
    }
    if Holds(b, id) {
      var i :| 0 <= i < |b| && b[i].id == id;
      assert (a + b)[|a| + i].id == id;
    }
  }

  lemma HoldsOne(ref: PatchRef, id: int)
    ensures Holds([ref], id) <==> ref.id == id
  {
    assert [ref][0] == ref;
  }

  lemma RefersToOneMore(rows: map<int, Row>, refs: seq<PatchRef>, ids: set<int>, id: int)
    requires RefersTo(rows, refs, ids) && id in rows && id !in ids
    ensures RefersTo(rows, refs + [PatchRef(id, rows[id].name)], ids + {id})
  {
    var ref := PatchRef(id, rows[id].name);
    forall x | x in ids + {id} ensures Holds(refs + [ref], x) {
      HoldsInBoth(refs, [ref], x);
      HoldsOne(ref, x);
    }
  }

  /** The listed patches that are in group g. */
  function ListedMembers(rows: map<int, Row>, listing: seq<int>, g: int): set<int> {
    set id | id in listing && GroupOf(rows, id) == Some(g)
  }

  lemma {:induction false} InGroupRefers(rows: map<int, Row>, listing: seq<int>, g: int)
    requires forall j, k :: 0 <= j < k < |listing| ==> listing[j] != listing[k]
    ensures RefersTo(rows, InGroup(rows, listing, g), ListedMembers(rows, listing, g))
  {
    if listing != [] {
      var front, last := listing[..|listing| - 1], listing[|listing| - 1];
      InGroupRefers(rows, front, g);
      assert listing == front + [last];
      if GroupOf(rows, last) == Some(g) {
        RefersToOneMore(rows, InGroup(rows, front, g), ListedMembers(rows, front, g), last);
        assert ListedMembers(rows, listing, g) == ListedMembers(rows, front, g) + {last};
      } else {
        assert ListedMembers(rows, listing, g) == ListedMembers(rows, front, g);
        assert InGroup(rows, listing, g) == InGroup(rows, front, g);
      }
    }
  }

  lemma LastRefers(rows: map<int, Row>, refs: seq<PatchRef>, ids: set<int>)
    requires refs != [] && RefersTo(rows, refs, ids)
    ensures var last := refs[|refs| - 1];
      && last.id in ids && last.id in rows && last == PatchRef(last.id, rows[last.id].name)
      && RefersTo(rows, refs[..|refs| - 1], ids - {last.id})
  {
    var front, last := refs[..|refs| - 1], refs[|refs| - 1];
    assert refs == front + [last];
    forall x | x in ids - {last.id} ensures Holds(front, x) {
      HoldsInBoth(front, [last], x);
      HoldsOne(last, x);
    }
  }

  lemma NothingRefers(rows: map<int, Row>, ids: set<int>, id: int)
    requires RefersTo(rows, [], ids)
    ensures RefersTo(rows, [], ids - {id})
  {
  }

  lemma {:induction false} ExceptRefers(rows: map<int, Row>, refs: seq<PatchRef>, ids: set<int>, id: int)
    requires RefersTo(rows, refs, ids)
    ensures RefersTo(rows, Except(refs, id), ids - {id})
    decreases |refs|
  {
    if refs == [] {
      NothingRefers(rows, ids, id);
    } else {
      var front, last := refs[..|refs| - 1], refs[|refs| - 1].id;
      LastRefers(rows, refs, ids);
      ExceptRefers(rows, front, ids - {last}, id);
      if last != id {
        RefersToOneMore(rows, Except(front, id), ids - {last} - {id}, last);
        assert ids - {last} - {id} + {last} == ids - {id};
      } else {
        assert ids - {last} - {id} == ids - {id};
        assert Except(refs, id) == Except(front, id);
      }
    }
  }

  /** The page entry of a patch. */
  function Entry(rows: map<int, Row>, id: int): Loaded
    requires id in rows
  {
    Loaded(id, rows[id].related, [])
  }

  /** The other members of the group of a patch. */
  function OtherMembers(rows: map<int, Row>, id: int): set<int>
    requires id in rows
  {
    if rows[id].related.None? then {} else Members(rows, rows[id].related.value) - {id}
  }

  /** Exactly the other members of the patch's group are loaded, each once and under its name. */
  lemma LoadsOtherMembers(rows: map<int, Row>, listing: seq<int>, id: int)
    requires IsListing(rows, listing) && id in rows
    ensures RefersTo(rows, Related(rows, listing, Entry(rows, id)), OtherMembers(rows, id))
  {
    if rows[id].related.Some? {
      var g := rows[id].related.value;
      InGroupRefers(rows, listing, g);
      forall x ensures x in ListedMembers(rows, listing, g) <==> x in Members(rows, g) {
        assert x in listing <==> x in rows;
      }
      ExceptRefers(rows, InGroup(rows, listing, g), Members(rows, g), id);
    }
  }

  /** b is among the patches listed for a. */
  predicate Lists(rows: map<int, Row>, listing: seq<int>, a: int, b: int)
    requires a in rows
  {
    Holds(Related(rows, listing, Entry(rows, a)), b)
  }

  /** Being related is mutual. */
  lemma RelatedIsMutual(rows: map<int, Row>, listing: seq<int>, a: int, b: int)
    requires IsListing(rows, listing) && a in rows && b in rows
    ensures Lists(rows, listing, a, b) <==> Lists(rows, listing, b, a)
  {
    ListsOthers(rows, listing, a, b);
    ListsOthers(rows, listing, b, a);
  }

  lemma ListsOthers(rows: map<int, Row>, listing: seq<int>, a: int, b: int)
    requires IsListing(rows, listing) && a in rows
    ensures Lists(rows, listing, a, b) <==> b in OtherMembers(rows, a)
  {
    LoadsOtherMembers(rows, listing, a);
    var refs := Related(rows, listing, Entry(rows, a));
    if Holds(refs, b) {
      var i :| 0 <= i < |refs| && refs[i].id == b;
      assert refs[i].id in OtherMembers(rows, a);
    }
  }

  /** In well-formed tables a patch has related patches exactly when it is in a group. */
  lemma GroupedHasRelated(t: Tables, listing: seq<int>, id: int)
    requires WellFormed(t) && IsListing(t.rows, listing) && id in t.rows
    ensures Related(t.rows, listing, Entry(t.rows, id)) == [] <==> t.rows[id].related.None?
  {
    LoadsOtherMembers(t.rows, listing, id);
    if t.rows[id].related.Some? {
      var all := Members(t.rows, t.rows[id].related.value);
      assert |all| >= 2 && id in all;
      assert |all - {id}| >= 1;
      var other := Pick(all - {id});
      assert Holds(Related(t.rows, listing, Entry(t.rows, id)), other);
    }
  }
}
