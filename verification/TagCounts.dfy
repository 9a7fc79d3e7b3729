/**
 The tag counts of pkg/db/tag.go: recomputed for a patch when the patch is stored and whenever a
 comment on it is, against a recomputation from scratch for all patches.
 */
module TagCounts {
  import opened Wrappers
  import opened Lines

  /** A tag and its pattern. */
  datatype Tag = Tag(id: int, pattern: string)

  /** The regular expressions: which patterns compile, and how many matches a text has. */
  datatype Regexps = Regexps(compiles: string -> bool, matches: (string, string) -> nat)

  /** Nullable content: an absent and an empty text are passed over. */
  type Content = Option<string>

  predicate HasText(c: Content) {
    c.Some? && c.value != ""
  }

  /** An absent or empty text counts nothing, even if the pattern matches the empty text. */
  function MatchesIn(re: Regexps, pattern: string, c: Content): nat {
    match c
    case None => 0
    case Some(text) => if |text| == 0 then 0 else re.matches(pattern, text)
  }

  function MatchesInAll(re: Regexps, pattern: string, contents: seq<Content>): nat {
    if contents == [] then 0
    else MatchesInAll(re, pattern, contents[..|contents| - 1]) + MatchesIn(re, pattern, contents[|contents| - 1])
  }

  /** The non-empty texts, in order. */
  function Texts(contents: seq<Content>): seq<string> {
    if contents == [] then []
    else
      var last := contents[|contents| - 1];
      Texts(contents[..|contents| - 1]) + if HasText(last) then [last.value] else []
  }

  function SumOver(re: Regexps, pattern: string, texts: seq<string>): nat {
    if texts == [] then 0
    else SumOver(re, pattern, texts[..|texts| - 1]) + re.matches(pattern, texts[|texts| - 1])
  }

  lemma {:induction false} TextsCount(re: Regexps, pattern: string, contents: seq<Content>)
    ensures SumOver(re, pattern, Texts(contents)) == MatchesInAll(re, pattern, contents)
  {
    if contents != [] {
      TextsCount(re, pattern, contents[..|contents| - 1]);
      var front, last := Texts(contents[..|contents| - 1]), contents[|contents| - 1];
      if HasText(last) {
        assert (front + [last.value])[..|front|] == front;
      } else {
        assert front + [] == front;
      }
    }
  }

  /** The comments may be listed in any order. */
  lemma {:induction false} OrderDoesNotMatter(re: Regexps, pattern: string, a: seq<Content>, b: seq<Content>)
    requires multiset(a) == multiset(b)
    ensures MatchesInAll(re, pattern, a) == MatchesInAll(re, pattern, b)
  {
    if a == [] {
      assert |b| == |multiset(b)| == 0;
    } else {
      var k := IndexOf(b, a[|a| - 1]);
      SameWithoutOne(a, b, |a| - 1, k);
      assert Without(a, |a| - 1) == a[..|a| - 1];
      OrderDoesNotMatter(re, pattern, a[..|a| - 1], Without(b, k));
      MoveToEnd(re, pattern, b, k);
    }
  }

  lemma {:induction false} MoveToEnd(re: Regexps, pattern: string, b: seq<Content>, k: nat)
    requires k < |b|
    ensures MatchesInAll(re, pattern, b) == MatchesInAll(re, pattern, Without(b, k)) + MatchesIn(re, pattern, b[k])
  {
    var front := b[..|b| - 1];
    if k == |b| - 1 {
      assert Without(b, k) == front;
    } else {
      var rest := Without(b, k);
      MoveToEnd(re, pattern, front, k);
      assert rest[..|rest| - 1] == Without(front, k);
      assert rest[|rest| - 1] == b[|b| - 1];
    }
  }

  // ---------------------------------------------------------------- the tables

  class Tables {
    const tags: seq<Tag>
    const re: Regexps
    var contents: map<int, Content>
    var comments: map<int, seq<Content>>
    /** patch_tag: count by patch and tag. */
    var counts: map<(int, int), nat>

    constructor (tags: seq<Tag>, re: Regexps)
      requires forall i, j :: 0 <= i < j < |tags| ==> tags[i].id != tags[j].id
      ensures Valid() && contents == map[] && this.tags == tags && this.re == re
      ensures Exact()
    {
      this.tags, this.re := tags, re;
      contents, comments, counts := map[], map[], map[];
    }

    ghost predicate Valid()
      reads this
    {
      && contents.Keys == comments.Keys
      && forall i, j :: 0 <= i < j < |tags| ==> tags[i].id != tags[j].id
    }

    /** All matches of a tag in a patch and its comments. */
    ghost function Total(patch: int, tag: Tag): nat
      requires patch in contents && patch in comments
      reads this
    {
      MatchesInAll(re, tag.pattern, [contents[patch]] + comments[patch])
    }

    /** The row of a patch and a tag says the total, and is there exactly when the total is positive. */
    ghost predicate ExactFor(patch: int, tag: Tag)
      requires patch in contents && patch in comments
      reads this
    {
      if Total(patch, tag) > 0 then (patch, tag.id) in counts && counts[(patch, tag.id)] == Total(patch, tag)
      else (patch, tag.id) !in counts
    }

    /** So do all rows, of every patch and every tag whose pattern compiles. */
    ghost predicate Exact()
      requires Valid()
      reads this
    {
      && (forall p, i :: p in contents && 0 <= i < |tags| && re.compiles(tags[i].pattern) ==> ExactFor(p, tags[i]))
      && (forall k :: k in counts ==> k.0 in contents)
    }

    /** The texts of a patch and its comments that are not empty. */
    method Collect(patch: int) returns (texts: seq<string>)
      requires patch in contents && patch in comments
      ensures texts == Texts([contents[patch]] + comments[patch])
    {
      texts := [];
      var content, all := contents[patch], comments[patch];
      if HasText(content) {
        texts := texts + [content.value];
      }
      assert Texts([content]) == texts by {
        assert [content][..0] == [];
      }
      assert [content] + all[..0] == [content];
      for i := 0 to |all|
        invariant texts == Texts([content] + all[..i])
      {
        if HasText(all[i]) {
          texts := texts + [all[i].value];
        }
        assert ([content] + all[..i + 1])[..i + 1] == [content] + all[..i];
      }
      assert all[..|all|] == all;
    }

    method CountMatches(pattern: string, texts: seq<string>) returns (count: nat)
      ensures count == SumOver(re, pattern, texts)
    {
      count := 0;
      for i := 0 to |texts|
        invariant count == SumOver(re, pattern, texts[..i])
      {
        count := count + re.matches(pattern, texts[i]);
        assert texts[..i + 1][..i] == texts[..i];
      }
      assert texts[..|texts|] == texts;
    }

    method RefreshTagCounts(patch: int)
      requires Valid() && patch in contents
      modifies this`counts
      ensures forall i :: 0 <= i < |tags| && re.compiles(tags[i].pattern) ==> ExactFor(patch, tags[i])
      ensures forall p, t :: p != patch ==> ((p, t) in counts <==> (p, t) in old(counts))
      ensures forall k: (int, int) :: k.0 != patch && k in counts ==> k in old(counts) && counts[k] == old(counts)[k]
    {
      var texts := Collect(patch);
      for i := 0 to |tags|
        invariant forall j :: 0 <= j < i && re.compiles(tags[j].pattern) ==> ExactFor(patch, tags[j])
        invariant forall p, t :: p != patch ==> ((p, t) in counts <==> (p, t) in old(counts))
        invariant forall k: (int, int) :: k.0 != patch && k in counts ==>
          k in old(counts) && counts[k] == old(counts)[k]
      {
        if !re.compiles(tags[i].pattern) {
          continue;
        }
        TextsCount(re, tags[i].pattern, [contents[patch]] + comments[patch]);
        var count := CountMatches(tags[i].pattern, texts);
        if count == 0 {
          counts := counts - {(patch, tags[i].id)};
        } else {
          counts := counts[(patch, tags[i].id) := count];
        }
      }
    }

    /** A patch is stored; its message id is new. */
    method StorePatch(patch: int, content: Content)
      requires Valid() && Exact() && patch !in contents
      modifies this
      ensures Valid() && Exact()
      ensures contents == old(contents)[patch := content] && comments == old(comments)[patch := []]
    {
      contents := contents[patch := content];
      comments := comments[patch := []];
      RefreshTagCounts(patch);
    }

    method StoreComment(patch: int, content: Content)
      requires Valid() && Exact() && patch in contents
      modifies this
      ensures Valid() && Exact()
      ensures contents == old(contents) && comments == old(comments)[patch := old(comments)[patch] + [content]]
    {
      comments := comments[patch := comments[patch] + [content]];
      RefreshTagCounts(patch);
    }
  }
  // ---------------------------------------------------------------- any run of arrivals

  /** A patch mail, or a comment mail that refers to a patch. */
  datatype Arrival = Patch(id: int, content: Content) | Comment(patch: int, msgid: string, content: Content)

  /** The content of a patch is that of its first mail. */
  function ContentOf(arrivals: seq<Arrival>, patch: int): Option<Content> {
    if arrivals == [] then None
    else if ContentOf(Init(arrivals), patch).Some? then ContentOf(Init(arrivals), patch)
    else if Last(arrivals).Patch? && Last(arrivals).id == patch then Some(Last(arrivals).content)
    else None
  }

  predicate HasId(comments: seq<(string, Content)>, msgid: string) {
    exists i :: 0 <= i < |comments| && comments[i].0 == msgid
  }

  /** The comments on a patch: those that find it, the first of each message id. */
  function CommentsOn(arrivals: seq<Arrival>, patch: int): seq<(string, Content)> {
    if arrivals == [] then []
    else
      var comments, last := CommentsOn(Init(arrivals), patch), Last(arrivals);
      if last.Comment? && last.patch == patch && ContentOf(Init(arrivals), patch).Some? && !HasId(comments, last.msgid)
      then comments + [(last.msgid, last.content)]
      else comments
  }

  function ContentsOf(comments: seq<(string, Content)>): (r: seq<Content>)
    ensures |r| == |comments| && forall i :: 0 <= i < |r| ==> r[i] == comments[i].1
  {
    seq(|comments|, i requires 0 <= i < |comments| => comments[i].1)
  }

  /** The two tables hold what has arrived, and the keys of the comments are those of the third argument. */
  ghost predicate Holds(contents: map<int, Content>, comments: map<int, seq<Content>>, keys: set<(int, string)>,
                        arrivals: seq<Arrival>) {
    && (forall p :: p in contents <==> ContentOf(arrivals, p).Some?)
    && (forall p :: p in contents ==> contents[p] == ContentOf(arrivals, p).value)
    && (forall p :: p in comments <==> p in contents)
    && (forall p :: p in comments ==> comments[p] == ContentsOf(CommentsOn(arrivals, p)))
    && (forall p, m :: (p, m) in keys <==> HasId(CommentsOn(arrivals, p), m))
  }

  lemma {:induction false} NoCommentsYet(arrivals: seq<Arrival>, patch: int)
    requires ContentOf(arrivals, patch).None?
    ensures CommentsOn(arrivals, patch) == []
  {
    if arrivals != [] {
      NoCommentsYet(Init(arrivals), patch);
    }
  }

  lemma PatchArrives(contents: map<int, Content>, comments: map<int, seq<Content>>, keys: set<(int, string)>,
                     arrivals: seq<Arrival>)
    requires arrivals != [] && Last(arrivals).Patch? && Holds(contents, comments, keys, Init(arrivals))
    ensures var Patch(id, content) := Last(arrivals);
      if id in contents then Holds(contents, comments, keys, arrivals)
      else Holds(contents[id := content], comments[id := []], keys, arrivals)
  {
    var id := Last(arrivals).id;
    if id !in contents {
      NoCommentsYet(Init(arrivals), id);
    }
    forall p ensures CommentsOn(arrivals, p) == CommentsOn(Init(arrivals), p) {}
  }

  lemma CommentArrives(contents: map<int, Content>, comments: map<int, seq<Content>>, keys: set<(int, string)>,
                       arrivals: seq<Arrival>)
    requires arrivals != [] && Last(arrivals).Comment? && Holds(contents, comments, keys, Init(arrivals))
    ensures var Comment(p, msgid, content) := Last(arrivals);
      if p !in contents || (p, msgid) in keys then Holds(contents, comments, keys, arrivals)
      else Holds(contents, comments[p := comments[p] + [content]], keys + {(p, msgid)}, arrivals)
  {
    var Comment(p, msgid, content) := Last(arrivals);
    var before, after := CommentsOn(Init(arrivals), p), CommentsOn(arrivals, p);
    forall q ensures ContentOf(arrivals, q) == ContentOf(Init(arrivals), q) {}
    forall q | q != p ensures CommentsOn(arrivals, q) == CommentsOn(Init(arrivals), q) {}
    if p in contents && (p, msgid) !in keys {
      assert after == before + [(msgid, content)];
      OneMore(before, msgid, content);
    }
  }

  lemma OneMore(comments: seq<(string, Content)>, msgid: string, content: Content)
    ensures var longer := comments + [(msgid, content)];
      && ContentsOf(longer) == ContentsOf(comments) + [content]
      && forall m :: HasId(longer, m) <==> HasId(comments, m) || m == msgid
  {
    var longer := comments + [(msgid, content)];
    assert longer[|comments|].0 == msgid;
    forall m | HasId(comments, m) ensures HasId(longer, m) {
      var i :| 0 <= i < |comments| && comments[i].0 == m;
      assert longer[i].0 == m;
    }
  }

  /**
   Patches and comments in any order, comments whose patch is not there and mails that come again among
   them: afterwards every count is that of a recomputation from all that was stored.
   */
  method StoreAll(tags: seq<Tag>, re: Regexps, arrivals: seq<Arrival>)
    returns (t: Tables, ghost keys: set<(int, string)>)
    requires forall i, j :: 0 <= i < j < |tags| ==> tags[i].id != tags[j].id
    ensures fresh(t) && t.tags == tags && t.re == re && t.Valid() && t.Exact()
    ensures Holds(t.contents, t.comments, keys, arrivals)
  {
    t := new Tables(tags, re);
    var taken: set<(int, string)> := {};
    for n := 0 to |arrivals|
      invariant fresh(t) && t.tags == tags && t.re == re && t.Valid() && t.Exact()
      invariant Holds(t.contents, t.comments, taken, arrivals[..n])
    {
      ghost var upTo := arrivals[..n + 1];
      assert Init(upTo) == arrivals[..n] && Last(upTo) == arrivals[n];
      match arrivals[n] {
        case Patch(id, content) =>
          PatchArrives(t.contents, t.comments, taken, upTo);
          if id !in t.contents {
            t.StorePatch(id, content);
          }
        case Comment(patch, msgid, content) =>
          CommentArrives(t.contents, t.comments, taken, upTo);
          if patch in t.contents && (patch, msgid) !in taken {
            t.StoreComment(patch, content);
            taken := taken + {(patch, msgid)};
          }
      }
    }
    assert arrivals[..|arrivals|] == arrivals;
    keys := taken;
  }
}
