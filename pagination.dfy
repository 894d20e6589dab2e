/** The page arithmetic shared by the book listing and the review listing of a book:
    the defaults for `page` and `limit`, the offset of a page, its window over the
    matching items and the metadata sent with it. */
module Pagination {
  import opened Wrappers

  /** Page size of the book listing when the caller gives none. */
  const BookPageSize: nat := 10
  /** Page size of a book's reviews when the caller gives none. */
  const ReviewPageSize: nat := 5

  function Min(a: int, b: int): (m: int) {
    if a <= b then a else b
  }

  /** `parseInt(param) || fallback`, where `param` is the parsed query parameter and
      None stands for a missing or non-numeric one (`NaN`). Zero is as falsy as NaN. */
  function OrDefault(param: Option<nat>, fallback: nat): (r: nat)
    ensures r == fallback <==> param.None? || param.value == 0 || param.value == fallback
    ensures r != fallback ==> param == Some(r)
    ensures fallback >= 1 ==> r >= 1
  {
    match param
    case None => fallback
    case Some(n) => if n == 0 then fallback else n
  }

  /** Multiplying by a natural number keeps an ordering. */
  lemma MulMonotone(a: int, b: int, c: nat)
    requires a <= b
    ensures a * c <= b * c
  {
    var d := b - a;
    assert b * c == a * c + d * c;
  }

  /** Integer ceiling of n / d: the fewest pages of d items that hold n items. */
  function CeilDiv(n: nat, d: nat): (q: nat)
    requires d > 0
    ensures (q - 1) * d < n <= q * d
  {
    var q := (n + d - 1) / d;
    var r := (n + d - 1) % d;
    assert n + d - 1 == q * d + r;
    assert (q - 1) * d == q * d - d;
    q
  }

  /** The number of items skipped to reach `page`: `(page - 1) * limit`. */
  function Offset(page: nat, limit: nat): (skip: nat)
    requires page >= 1
  {
    (page - 1) * limit
  }

  /** The `pagination` object of a listing response. */
  datatype PageInfo = PageInfo(currentPage: nat, totalPages: nat, total: nat, hasNextPage: bool, hasPrevPage: bool)

  /** The metadata of page `page` of `total` items, `limit` per page: `totalPages` is
      the ceiling of total / limit, there is a next page exactly when items remain
      after this one, and a previous page exactly when this one skips some. */
  function Paginate(page: nat, limit: nat, total: nat): (p: PageInfo)
    requires page >= 1 && limit >= 1
    ensures p.currentPage == page && p.total == total
    ensures (p.totalPages - 1) * limit < total <= p.totalPages * limit
    ensures p.hasNextPage <==> page * limit < total
    ensures p.hasPrevPage <==> Offset(page, limit) > 0
  {
    var pages := CeilDiv(total, limit);
    assert page < pages <==> page * limit < total by {
      if page < pages {
        MulMonotone(page, pages - 1, limit);
      } else {
        MulMonotone(pages, page, limit);
      }
    }
    PageInfo(page, pages, total, page < pages, page > 1)
  }

  /** `.skip(skip).limit(limit)` over `s`: at most `limit` items, taken in order from
      position `skip` on. */
  function Window<T>(s: seq<T>, skip: nat, limit: nat): (r: seq<T>)
    ensures |r| <= limit
    ensures |r| == if skip >= |s| then 0 else Min(limit, |s| - skip)
    ensures forall i :: 0 <= i < |r| ==> r[i] == s[skip + i]
  {
    if skip >= |s| then [] else s[skip..Min(skip + limit, |s|)]
  }

  /** `hasNextPage` says exactly that the following page is not empty. */
  lemma HasNextPageMeansMore<T>(s: seq<T>, page: nat, limit: nat)
    requires page >= 1 && limit >= 1
    ensures Paginate(page, limit, |s|).hasNextPage <==> Window(s, Offset(page + 1, limit), limit) != []
  {
  }

  /** Every item lies on some page no later than the last one: item j is item
      j mod limit of page j div limit + 1. */
  lemma {:induction false} ItemOnItsPage<T>(s: seq<T>, limit: nat, j: nat)
    requires limit >= 1 && j < |s|
    ensures j / limit + 1 <= Paginate(j / limit + 1, limit, |s|).totalPages
    ensures j % limit < |Window(s, Offset(j / limit + 1, limit), limit)|
    ensures Window(s, Offset(j / limit + 1, limit), limit)[j % limit] == s[j]
  {
    var q := j / limit;
    var r := j % limit;
    assert j == q * limit + r;
    PositionOnPage(s, limit, q, r);
  }

  /** Item `r` of page `q + 1` is the item at `q * limit + r`, and that page exists. */
  lemma PositionOnPage<T>(s: seq<T>, limit: nat, q: nat, r: nat)
    requires limit >= 1 && r < limit && q * limit + r < |s|
    ensures q + 1 <= Paginate(q + 1, limit, |s|).totalPages
    ensures r < |Window(s, Offset(q + 1, limit), limit)|
    ensures Window(s, Offset(q + 1, limit), limit)[r] == s[q * limit + r]
  {
    var pages := Paginate(q + 1, limit, |s|).totalPages;
    assert Offset(q + 1, limit) == q * limit;
    if pages <= q {
      MulMonotone(pages, q, limit);
    }
  }
}
