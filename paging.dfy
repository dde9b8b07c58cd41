/** The `paginate` helper of the request handlers: one page of an ordered
    query result plus the navigation metadata the templates use. */
module Paging {
  import opened Wrappers

  /** The page size every listing handler passes. */
  const PerPage: nat := 5

  datatype Page<T> = Page(
    items: seq<T>,
    total: nat,
    page: nat,
    perPage: nat,
    pages: nat,
    hasPrev: bool,
    hasNext: bool,
    prevNum: Option<nat>,
    nextNum: Option<nat>)

  function Min(a: int, b: int): int { if a <= b then a else b }

  /** Number of rows skipped before page `page`: the query's OFFSET. */
  function Offset(page: nat, perPage: nat): nat
    requires page >= 1
  {
    (page - 1) * perPage
  }

  /** `pages` is the ceiling of `total / perPage`: the least count of pages of
      `perPage` rows that holds `total` rows. */
  predicate IsPageCount(pages: nat, total: nat, perPage: nat)
  {
    total <= pages * perPage && (pages == 0 || (pages - 1) * perPage < total)
  }

  /** `(total + perPage - 1) // perPage` is that ceiling. */
  lemma CeilingDivision(total: nat, perPage: nat)
    requires perPage >= 1
    ensures IsPageCount((total + perPage - 1) / perPage, total, perPage)
  {
    var q := (total + perPage - 1) / perPage;
    var m := (total + perPage - 1) % perPage;
    assert q * perPage + m == total + perPage - 1;
    if q >= 1 {
      assert (q - 1) * perPage == q * perPage - perPage;
    }
  }

  /** One page: OFFSET `(page-1)*perPage` LIMIT `perPage` over `s`, with the
      row count and the previous/next page numbers. */
  function Paginate<T>(s: seq<T>, page: nat, perPage: nat): (r: Page<T>)
    requires page >= 1 && perPage >= 1
    ensures r.total == |s| && r.page == page && r.perPage == perPage
    ensures IsPageCount(r.pages, |s|, perPage)
    ensures |r.items| == if Offset(page, perPage) >= |s| then 0
                         else Min(perPage, |s| - Offset(page, perPage))
    ensures forall k :: 0 <= k < |r.items| ==>
              Offset(page, perPage) + k < |s| && r.items[k] == s[Offset(page, perPage) + k]
    ensures r.hasPrev <==> page > 1
    ensures r.prevNum == if page > 1 then Some(page - 1) else None
    ensures r.hasNext <==> page < r.pages
    ensures r.nextNum == if page < r.pages then Some(page + 1) else None
  {
    var total := |s|;
    var offset := Offset(page, perPage);
    var items := if offset >= total then [] else s[offset..Min(offset + perPage, total)];
    var pages := (total + perPage - 1) / perPage;
    CeilingDivision(total, perPage);
    Page(items, total, page, perPage, pages,
         page > 1, page < pages,
         if page > 1 then Some(page - 1) else None,
         if page < pages then Some(page + 1) else None)
  }

  /** Every page holds at most `perPage` rows, and every page before the last
      is full. */
  lemma PageSize<T>(s: seq<T>, page: nat, perPage: nat)
    requires page >= 1 && perPage >= 1
    ensures |Paginate(s, page, perPage).items| <= perPage
    ensures page < Paginate(s, page, perPage).pages ==>
              |Paginate(s, page, perPage).items| == perPage
  {
    var r := Paginate(s, page, perPage);
    if page < r.pages {
      assert page * perPage <= (r.pages - 1) * perPage by {
        MulMonotone(page, r.pages - 1, perPage);
      }
      assert Offset(page, perPage) + perPage == page * perPage;
    }
  }

  /** A page is non-empty exactly when its number is between 1 and `pages`;
      in particular any page past the last returns no rows and no next page. */
  lemma PageInRange<T>(s: seq<T>, page: nat, perPage: nat)
    requires page >= 1 && perPage >= 1
    ensures Paginate(s, page, perPage).items != [] <==> page <= Paginate(s, page, perPage).pages
    ensures page > Paginate(s, page, perPage).pages ==>
              Paginate(s, page, perPage).items == [] && !Paginate(s, page, perPage).hasNext
              && Paginate(s, page, perPage).nextNum == None
  {
    var r := Paginate(s, page, perPage);
    if page <= r.pages {
      MulMonotone(page - 1, r.pages - 1, perPage);
    } else {
      MulMonotone(r.pages, page - 1, perPage);
    }
  }

  /** Pages cover the sequence: row `i` is row `i % perPage` of page
      `i / perPage + 1`, and that page exists. */
  lemma RowPlacement<T>(s: seq<T>, perPage: nat, i: nat)
    requires perPage >= 1 && i < |s|
    ensures var page := i / perPage + 1;
            var r := Paginate(s, page, perPage);
            page <= r.pages && i % perPage < |r.items| && r.items[i % perPage] == s[i]
  {
    var page := i / perPage + 1;
    var r := Paginate(s, page, perPage);
    assert Offset(page, perPage) == (i / perPage) * perPage;
    assert Offset(page, perPage) + i % perPage == i;
    PageInRange(s, page, perPage);
  }

  lemma MulMonotone(a: nat, b: nat, k: nat)
    requires a <= b
    ensures a * k <= b * k
  {
  }
}
