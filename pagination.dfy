/** The page arithmetic shared by the rent and student listings:
    `page` and `pageSize` default to 1 and 10 when parsing gives 0 or NaN,
    `offset = (page - 1) * pageSize`, the rows are `LIMIT pageSize OFFSET offset`
    of the table, and `totalPages = ceil(totalRecords / pageSize)`. */
module Pagination {
  import opened Common

  const DefaultPage := 1
  const DefaultPageSize := 10

  datatype Listing<T> = Listing(data: seq<T>, totalRecords: nat, totalPages: nat, currentPage: int, pageSize: int)

  /** `parseInt(v) || d`: a parse that gives NaN (None) or 0 falls back to `d`. */
  function OrDefault(parsed: Option<int>, d: int): (r: int)
    ensures Given(parsed) ==> r == parsed.value
    ensures !Given(parsed) ==> r == d
  {
    if Given(parsed) then parsed.value else d
  }

  /** `Math.ceil(total / size)` for a positive size. */
  function CeilDiv(total: nat, size: int): (r: nat)
    requires size > 0
    ensures r * size >= total
    ensures r == 0 || (r - 1) * size < total
  {
    var q := (total + size - 1) / size;
    assert total + size - 1 == q * size + (total + size - 1) % size;
    q
  }

  /** `LIMIT limit OFFSET offset` over the table order. */
  function Window<T>(rows: seq<T>, offset: nat, limit: nat): (r: seq<T>)
    ensures offset >= |rows| ==> r == []
    ensures offset + limit <= |rows| ==> r == rows[offset..offset + limit]
    ensures offset < |rows| < offset + limit ==> r == rows[offset..]
  {
    if offset >= |rows| then [] else rows[offset..if offset + limit <= |rows| then offset + limit else |rows|]
  }

  /** `(page - 1) * pageSize`: negative exactly when the page is below 1. */
  function Offset(page: int, size: int): (o: int)
    requires size > 0
    ensures o < 0 <==> page < 1
    ensures o + size == page * size
  {
    NegativeProduct(page - 1, size);
    (page - 1) * size
  }

  /** The listing handler: defaults, then the page of rows. A negative LIMIT
      or OFFSET is rejected by the database, which the handler reports as a
      server error. */
  function List<T>(rows: seq<T>, page: Option<int>, pageSize: Option<int>): (r: Result<Listing<T>>)
    ensures r.Ok? <==> OrDefault(page, DefaultPage) >= 1 && OrDefault(pageSize, DefaultPageSize) >= 1
    ensures r.Err? ==> r == Err(ServerError, QueryRejected)
    ensures r.Ok? ==> var p, n := OrDefault(page, DefaultPage), OrDefault(pageSize, DefaultPageSize);
      && r.value.currentPage == p && r.value.pageSize == n
      && r.value.totalRecords == |rows|
      && r.value.data == Window(rows, Offset(p, n), n)
      && r.value.totalPages * n >= |rows|
      && (r.value.totalPages == 0 || (r.value.totalPages - 1) * n < |rows|)
  {
    var p := OrDefault(page, DefaultPage);
    var n := OrDefault(pageSize, DefaultPageSize);
    // `OrDefault` never gives 0, so `n` is either negative or positive here.
    if n <= 0 then Err(ServerError, QueryRejected)
    else
      var offset := Offset(p, n);
      if offset < 0 then Err(ServerError, QueryRejected)
      else Ok(Listing(Window(rows, offset, n), |rows|, CeilDiv(|rows|, n), p, n))
  }

  /** The first `count` pages, one after the other. */
  function Pages<T>(rows: seq<T>, size: nat, count: nat): seq<T>
    requires size > 0
  {
    if count == 0 then [] else Pages(rows, size, count - 1) + Window(rows, (count - 1) * size, size)
  }

  lemma {:induction false} PagesArePrefix<T>(rows: seq<T>, size: nat, count: nat)
    requires size > 0
    ensures Pages(rows, size, count) == rows[..if count * size <= |rows| then count * size else |rows|]
  {
    if count > 0 {
      PagesArePrefix(rows, size, count - 1);
      var lo := (count - 1) * size;
      assert lo + size == count * size;
      WindowExtends(rows, lo, size);
    }
  }

  /** The window from `lo` continues the prefix that ends at `lo`. */
  lemma WindowExtends<T>(rows: seq<T>, lo: nat, size: nat)
    ensures rows[..if lo <= |rows| then lo else |rows|] + Window(rows, lo, size)
      == rows[..if lo + size <= |rows| then lo + size else |rows|]
  {
    if lo + size <= |rows| {
      assert rows[..lo] + rows[lo..lo + size] == rows[..lo + size];
    } else if lo < |rows| {
      assert rows[..lo] + rows[lo..] == rows;
    } else {
      assert rows[..|rows|] + [] == rows;
    }
  }

  /** Reading pages 1 .. totalPages in turn returns every row exactly once, in table order. */
  lemma PagesCoverTable<T>(rows: seq<T>, size: nat)
    requires size > 0
    ensures Pages(rows, size, CeilDiv(|rows|, size)) == rows
  {
    PagesArePrefix(rows, size, CeilDiv(|rows|, size));
  }

  /** A page number past totalPages yields no rows; every page up to it yields some. */
  lemma {:induction false} PageEmptyIffPastLast<T>(rows: seq<T>, page: int, size: int)
    requires page >= 1 && size > 0
    ensures Window(rows, (page - 1) * size, size) == [] <==> page > CeilDiv(|rows|, size)
  {
    var last := CeilDiv(|rows|, size);
    var lo := (page - 1) * size;
    assert Window(rows, lo, size) == [] <==> lo >= |rows|;
    if page > last {
      MulMonotone(last, page - 1, size);
    } else {
      MulMonotone(page - 1, last - 1, size);
    }
  }

  lemma NegativeProduct(a: int, n: int)
    requires n > 0
    ensures a * n < 0 <==> a < 0
  {
    if a < 0 { MulMonotone(a, -1, n); } else { MulMonotone(0, a, n); }
  }

  lemma MulMonotone(a: int, b: int, n: nat)
    requires a <= b
    ensures a * n <= b * n
  {
    assert b * n == a * n + (b - a) * n;
  }
}
