/** Pages of a listing: offsetPage of pkg/api/api.go and the links of buildLinkHeader in pkg/api/util.go. */
module Paging {
  import opened Wrappers
  import opened Lines

  /** What a request asks for and the configured page sizes. */
  datatype Params = Params(page: int, perPage: int, pageSize: int, pageMax: int)

  /** The size asked for, the default when there is none, and never more than the maximum. */
  function PerPage(p: Params): int {
    var asked := if p.perPage < 1 then p.pageSize else p.perPage;
    if asked > p.pageMax then p.pageMax else asked
  }

  function Offset(p: Params): int {
    (p.page - 1) * PerPage(p)
  }

  /** The pages that the links point to. */
  datatype Links = Links(last: int, prev: Option<int>, next: Option<int>)

  function LinkHeader(page: int, perPage: int, total: int): Links
    requires perPage > 0
  {
    var pages := (total + perPage - 1) / perPage;
    var last := if pages < 1 then 1 else pages;
    Links(last, if page > 1 then Some(page - 1) else None, if page < last then Some(page + 1) else None)
  }

  /** The items that a query with the page's offset and limit finds, of total in all. */
  function Items(p: Params, total: nat): seq<nat>
    requires p.page >= 1 && p.pageSize > 0 && p.pageMax > 0
  {
    var lo, n := Offset(p), PerPage(p);
    Positive(p);
    if lo >= total then [] else Range(lo, if lo + n > total then total else lo + n)
  }

  lemma Positive(p: Params)
    requires p.page >= 1 && p.pageSize > 0 && p.pageMax > 0
    ensures 1 <= PerPage(p) <= p.pageMax && Offset(p) >= 0
  {
  }

  /** The items found from this page on by going to the next page as long as there is a link to it. */
  function Visit(p: Params, total: nat): seq<nat>
    requires p.page >= 1 && p.pageSize > 0 && p.pageMax > 0
    decreases LinkHeader(1, PerPage(p), total).last - p.page
  {
    Positive(p);
    Items(p, total) +
    match LinkHeader(p.page, PerPage(p), total).next
    case Some(next) => Visit(p.(page := next), total)
    case None => []
  }

  /** Where the last page is. */
  lemma LastPage(n: int, total: int)
    requires n > 0 && total >= 0
    ensures var last := LinkHeader(1, n, total).last;
      last >= 1 && (total > 0 ==> (last - 1) * n < total) && total <= last * n
  {
    var q := (total + n - 1) / n;
    assert q * n <= total + n - 1 < q * n + n;
    assert (q - 1) * n == q * n - n;
  }

  lemma OffsetBelow(n: int, page: int, last: int)
    requires n > 0 && page <= last
    ensures (page - 1) * n <= (last - 1) * n
  {
  }

  lemma NextOffset(p: Params)
    ensures Offset(p.(page := p.page + 1)) == Offset(p) + PerPage(p)
  {
    var n := PerPage(p);
    assert (p.page + 1 - 1) * n == (p.page - 1) * n + n;
  }

  /** No page up to the last is empty, unless there is nothing at all; none is longer than the maximum. */
  lemma PageIsFilled(p: Params, total: nat)
    requires p.page >= 1 && p.pageSize > 0 && p.pageMax > 0
    requires p.page <= LinkHeader(p.page, PerPage(p), total).last
    ensures |Items(p, total)| <= p.pageMax
    ensures Items(p, total) == [] <==> total == 0
  {
    Positive(p);
    LastPage(PerPage(p), total);
    OffsetBelow(PerPage(p), p.page, LinkHeader(1, PerPage(p), total).last);
  }

  /** Where a page up to the last begins and ends. */
  lemma PageBounds(p: Params, total: nat)
    requires p.page >= 1 && p.pageSize > 0 && p.pageMax > 0
    requires p.page <= LinkHeader(1, PerPage(p), total).last
    ensures 0 <= Offset(p) <= total
    ensures var end := Offset(p) + PerPage(p);
      if p.page < LinkHeader(1, PerPage(p), total).last then end <= total else total <= end
  {
    Positive(p);
    var n, last := PerPage(p), LinkHeader(1, PerPage(p), total).last;
    LastPage(n, total);
    NextOffset(p);
    if p.page < last {
      OffsetBelow(n, p.page, last);
      OffsetBelow(n, p.page + 1, last);
    }
  }

  /** The items of a page that is not the last, and of the last one. */
  lemma ItemsOfPage(p: Params, total: nat)
    requires p.page >= 1 && p.pageSize > 0 && p.pageMax > 0
    requires p.page <= LinkHeader(1, PerPage(p), total).last
    ensures 0 <= Offset(p) <= total
    ensures p.page < LinkHeader(1, PerPage(p), total).last ==>
      Offset(p) + PerPage(p) <= total && Items(p, total) == Range(Offset(p), Offset(p) + PerPage(p))
    ensures p.page == LinkHeader(1, PerPage(p), total).last ==> Items(p, total) == Range(Offset(p), total)
  {
    PageBounds(p, total);
  }

  lemma VisitNext(p: Params, total: nat)
    requires p.page >= 1 && p.pageSize > 0 && p.pageMax > 0
    ensures var next := LinkHeader(p.page, PerPage(p), total).next;
      && (next.None? ==> Visit(p, total) == Items(p, total))
      && (next.Some? ==> Visit(p, total) == Items(p, total) + Visit(p.(page := p.page + 1), total))
  {
    assert Items(p, total) + [] == Items(p, total);
  }

  lemma {:induction false} VisitRest(p: Params, total: nat)
    requires p.page >= 1 && p.pageSize > 0 && p.pageMax > 0
    requires p.page <= LinkHeader(p.page, PerPage(p), total).last
    ensures 0 <= Offset(p) <= total && Visit(p, total) == Range(Offset(p), total)
    decreases LinkHeader(1, PerPage(p), total).last - p.page
  {
    ItemsOfPage(p, total);
    VisitNext(p, total);
    if p.page < LinkHeader(1, PerPage(p), total).last {
      NextOffset(p);
      VisitRest(p.(page := p.page + 1), total);
    }
  }

  /** Following the links from the first page finds every item once, in order, whatever the sizes. */
  lemma LinksVisitAll(p: Params, total: nat)
    requires p.page == 1 && p.pageSize > 0 && p.pageMax > 0
    ensures Visit(p, total) == Range(0, total)
  {
    Positive(p);
    LastPage(PerPage(p), total);
    VisitRest(p, total);
  }

  // ---------------------------------------------------------------- sizes and links, one by one

  /** A page is as long as was asked for, up to the maximum, as far as there are items. */
  lemma PageHasWhatWasAskedFor(p: Params, total: nat, k: nat)
    requires p.page >= 1 && p.pageSize > 0 && p.pageMax > 0 && 1 <= p.perPage <= p.pageMax && k < p.perPage
    ensures (p.page - 1) * p.perPage + k < total ==>
              k < |Items(p, total)| && Items(p, total)[k] == (p.page - 1) * p.perPage + k
    ensures (p.page - 1) * p.perPage + k >= total ==> |Items(p, total)| <= k
    ensures |Items(p, total)| <= p.perPage
  {
    Positive(p);
  }

  /** Asking for none is asking for the default, and for more than the maximum for the maximum. */
  lemma SizesAskedFor(p: Params, total: nat)
    requires p.page >= 1 && p.pageSize > 0 && p.pageMax > 0
    ensures p.perPage < 1 ==> Items(p, total) == Items(p.(perPage := p.pageSize), total)
    ensures p.perPage > p.pageMax ==> Items(p, total) == Items(p.(perPage := p.pageMax), total)
  {
  }

  /** Of two pages of a listing each links to the other or neither does; neighbours do, others do not. */
  lemma LinksAreMutual(page: int, other: int, perPage: int, total: int)
    requires perPage > 0 && total >= 0
    requires 1 <= page <= LinkHeader(page, perPage, total).last && 1 <= other <= LinkHeader(page, perPage, total).last
    ensures LinkHeader(page, perPage, total).next == Some(other) <==> other == page + 1
    ensures LinkHeader(other, perPage, total).prev == Some(page) <==> other == page + 1
    ensures LinkHeader(1, perPage, total).prev == None
    ensures LinkHeader(LinkHeader(1, perPage, total).last, perPage, total).next == None
  {
  }
}
