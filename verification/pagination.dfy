/** Offset pagination as both list endpoints compute it: `page` and `limit`
    default to 1 and 100, the query skips `(page - 1) * limit` rows and takes
    `limit`, and the response reports `Math.ceil(total / limit)` pages. */
module Pagination {
  import opened Wrappers

  const DefaultPage: int := 1
  const DefaultLimit: int := 100

  /** The pagination block of a list response. `totalPages` is None where
      JavaScript's `total / 0` yields `Infinity` or `NaN`. */
  datatype PageInfo = PageInfo(page: int, limit: int, total: nat, totalPages: Option<int>)

  /** Number of rows before the first row of `page`; `EveryRowOnOnePage`
      shows that these windows tile the rows. */
  function Skip(page: int, limit: int): (r: int)
    ensures page == DefaultPage ==> r == 0
    ensures page >= DefaultPage && limit >= 0 ==> r >= 0
  {
    (page - 1) * limit
  }

  /** `Math.ceil(a / b)` on exact quotients: the least integer not below `a / b`. */
  function CeilDiv(a: int, b: int): (r: int)
    requires b != 0
    ensures b > 0 ==> (r - 1) * b < a <= r * b
    ensures b < 0 ==> r * b <= a < (r - 1) * b
  {
    if b > 0 then
      var q := (-a) / b;
      assert -a == q * b + (-a) % b;
      -q
    else
      var q := a / (-b);
      assert a == q * (-b) + a % (-b);
      -q
  }

  function TotalPages(total: nat, limit: int): (r: Option<int>)
    ensures r.None? <==> limit == 0
    ensures limit > 0 && total == 0 ==> r == Some(0)
    ensures limit > 0 && total > 0 ==> r.value >= 1 && (r.value - 1) * limit < total <= r.value * limit
  {
    if limit == 0 then None else Some(CeilDiv(total, limit))
  }

  /** The pagination block for a query's `page` and `limit` and the row count. */
  function Paginate(page: Option<int>, limit: Option<int>, total: nat): (r: PageInfo)
    ensures r.page == page.GetOr(DefaultPage) && r.limit == limit.GetOr(DefaultLimit)
    ensures r.total == total
    ensures r.totalPages == TotalPages(total, r.limit)
    ensures r.totalPages.None? <==> r.limit == 0
    ensures r.limit > 0 && total == 0 ==> r.totalPages == Some(0)
    ensures page.None? && limit.None? ==> r == PageInfo(1, 100, total, Some(CeilDiv(total, 100)))
  {
    var p := page.GetOr(DefaultPage);
    var l := limit.GetOr(DefaultLimit);
    PageInfo(p, l, total, TotalPages(total, l))
  }

  /** With a positive limit every row index below `total` lies on exactly one
      reported page: the window `[Skip(p, limit), Skip(p, limit) + limit)` of
      the page `p = index / limit + 1`, which is between 1 and `totalPages`. */
  lemma EveryRowOnOnePage(total: nat, limit: int, index: int)
    requires limit > 0 && 0 <= index < total
    ensures var p := index / limit + 1;
      && 1 <= p <= TotalPages(total, limit).value
      && Skip(p, limit) <= index < Skip(p, limit) + limit
    ensures forall p :: Skip(p, limit) <= index < Skip(p, limit) + limit ==> p == index / limit + 1
  {
    var p := index / limit + 1;
    var tp := TotalPages(total, limit).value;
    assert index == (p - 1) * limit + index % limit;
    if p > tp {
      ScaleStrict(tp, p, limit);
    }
    forall p' | Skip(p', limit) <= index < Skip(p', limit) + limit
      ensures p' == p
    {
      if p' < p {
        ScaleStrict(p' - 1, p - 1, limit);
      } else if p' > p {
        ScaleStrict(p - 1, p' - 1, limit);
      }
    }
  }

  lemma ScaleStrict(x: int, y: int, l: int)
    requires l > 0 && x < y
    ensures x * l + l <= y * l
  {
    var d := y - x - 1;
    assert d >= 0;
    assert y * l == x * l + l + d * l;
    assert d * l >= 0;
  }
}
