/** Paging of the question table: the page count and navigation buttons of
    the data table, and the offset/limit window the list queries read. */
module Pagination {
  /** The page sizes the size picker offers. */
  const PageSizes: seq<nat> := [10, 20, 30, 40, 50]

  /** Every offered size is positive and a multiple of ten. */
  lemma PageSizesPositive()
    ensures forall i :: 0 <= i < |PageSizes| ==> PageSizes[i] > 0 && PageSizes[i] % 10 == 0
    ensures |PageSizes| == 5 && PageSizes[0] == 10 && PageSizes[4] == 50
  {
  }

  /** `Math.ceil(total / pageSize)`: the fewest pages of `pageSize` rows that
      hold `total` rows. */
  function TotalPages(total: nat, pageSize: nat): (r: nat)
    requires pageSize > 0
    ensures r * pageSize >= total
    ensures r > 0 ==> (r - 1) * pageSize < total
    ensures r == 0 <==> total == 0
  {
    var r := (total + pageSize - 1) / pageSize;
    CeilBounds(total, pageSize, r);
    r
  }

  lemma CeilBounds(total: nat, pageSize: nat, r: nat)
    requires pageSize > 0 && r == (total + pageSize - 1) / pageSize
    ensures r * pageSize >= total
    ensures r > 0 ==> (r - 1) * pageSize < total
    ensures r == 0 <==> total == 0
  {
    var n := total + pageSize - 1;
    assert n == r * pageSize + n % pageSize;
    assert 0 <= n % pageSize < pageSize;
    if r > 0 {
      assert (r - 1) * pageSize == r * pageSize - pageSize;
    }
  }

  /** The state the table keeps: the current page and the page size. */
  datatype Paging = Paging(page: nat, pageSize: nat)

  /** The previous-page button is enabled iff the page is past the first. */
  predicate CanPrevious(p: Paging) {
    p.page > 1
  }

  /** The next-page button is enabled iff pages remain after this one. */
  predicate CanNext(p: Paging, total: nat)
    requires p.pageSize > 0
  {
    p.page < TotalPages(total, p.pageSize)
  }

  /** A click on the previous-page button; a disabled button does nothing. */
  function Previous(p: Paging): (r: Paging)
    ensures r.pageSize == p.pageSize
    ensures CanPrevious(p) ==> r.page + 1 == p.page
    ensures !CanPrevious(p) ==> r == p
  {
    if CanPrevious(p) then p.(page := p.page - 1) else p
  }

  /** A click on the next-page button; a disabled button does nothing. */
  function Next(p: Paging, total: nat): (r: Paging)
    requires p.pageSize > 0
    ensures r.pageSize == p.pageSize
    ensures CanNext(p, total) ==> r.page == p.page + 1
    ensures !CanNext(p, total) ==> r == p
  {
    if CanNext(p, total) then p.(page := p.page + 1) else p
  }

  /** Picking a new page size returns to the first page. */
  function ChangePageSize(p: Paging, size: nat): (r: Paging)
    ensures r.pageSize == size && r.page == 1
  {
    Paging(1, size)
  }

  /** A page within 1..TotalPages stays there under either button. */
  lemma NavigationStaysInRange(p: Paging, total: nat)
    requires p.pageSize > 0 && 1 <= p.page <= TotalPages(total, p.pageSize)
    ensures 1 <= Previous(p).page <= TotalPages(total, p.pageSize)
    ensures 1 <= Next(p, total).page <= TotalPages(total, p.pageSize)
  {
  }

  /** Next then Previous returns to the page it started from. */
  lemma NextThenPrevious(p: Paging, total: nat)
    requires p.pageSize > 0 && p.page >= 1 && CanNext(p, total)
    ensures Previous(Next(p, total)) == p
  {
  }

  /** The number of rows before `page`. */
  function Offset(page: nat, pageSize: nat): nat
    requires page >= 1
  {
    (page - 1) * pageSize
  }

  /** The rows a list query returns for `page`: `limit pageSize` rows
      from `offset (page - 1) * pageSize` of the ordered result. */
  function ListPage<T>(rows: seq<T>, page: nat, pageSize: nat): (r: seq<T>)
    requires page >= 1
    ensures |r| <= pageSize
    ensures forall i :: 0 <= i < |r| ==> Offset(page, pageSize) + i < |rows| && r[i] == rows[Offset(page, pageSize) + i]
    ensures |r| == pageSize || Offset(page, pageSize) + |r| >= |rows|
  {
    var offset := Offset(page, pageSize);
    if offset >= |rows| then []
    else if offset + pageSize <= |rows| then rows[offset..offset + pageSize]
    else rows[offset..]
  }

  /** A page holds rows iff its number is between 1 and the page count, so the
      next-page button is enabled exactly when the next page has rows. */
  lemma PageNonEmptyIff<T>(rows: seq<T>, page: nat, pageSize: nat)
    requires page >= 1 && pageSize > 0
    ensures ListPage(rows, page, pageSize) != [] <==> page <= TotalPages(|rows|, pageSize)
  {
    var n := TotalPages(|rows|, pageSize);
    if page <= n {
      assert (page - 1) * pageSize <= (n - 1) * pageSize by {
        MulMonotone(page - 1, n - 1, pageSize);
      }
    } else {
      assert (page - 1) * pageSize >= n * pageSize by {
        MulMonotone(n, page - 1, pageSize);
      }
    }
  }

  lemma MulMonotone(a: nat, b: nat, c: nat)
    requires a <= b
    ensures a * c <= b * c
  {
  }

  lemma CanNextIffRows<T>(rows: seq<T>, p: Paging)
    requires p.pageSize > 0 && p.page >= 1
    ensures CanNext(p, |rows|) <==> ListPage(rows, p.page + 1, p.pageSize) != []
  {
    PageNonEmptyIff(rows, p.page + 1, p.pageSize);
  }

  /** Pages 1..k laid end to end. */
  function Pages<T>(rows: seq<T>, pageSize: nat, k: nat): seq<T>
  {
    if k == 0 then [] else Pages(rows, pageSize, k - 1) + ListPage(rows, k, pageSize)
  }

  /** The first k pages are the first k * pageSize rows. */
  lemma {:induction false} PagesPrefix<T>(rows: seq<T>, pageSize: nat, k: nat)
    ensures k * pageSize <= |rows| ==> Pages(rows, pageSize, k) == rows[..k * pageSize]
    ensures k * pageSize > |rows| ==> Pages(rows, pageSize, k) == rows
  {
    if k > 0 {
      PagesPrefix(rows, pageSize, k - 1);
      var off := (k - 1) * pageSize;
      assert k * pageSize == off + pageSize;
      AppendPage(rows, pageSize, k, Pages(rows, pageSize, k - 1));
    }
  }

  /** One step of `PagesPrefix`: appending page k to the rows before it. */
  lemma AppendPage<T>(rows: seq<T>, pageSize: nat, k: nat, before: seq<T>)
    requires k >= 1
    requires (k - 1) * pageSize <= |rows| ==> before == rows[..(k - 1) * pageSize]
    requires (k - 1) * pageSize > |rows| ==> before == rows
    ensures var off := (k - 1) * pageSize + pageSize;
            (off <= |rows| ==> before + ListPage(rows, k, pageSize) == rows[..off])
            && (off > |rows| ==> before + ListPage(rows, k, pageSize) == rows)
  {
    var off := (k - 1) * pageSize;
    if off >= |rows| {
      assert before == rows;
    } else if off + pageSize <= |rows| {
      assert rows[..off] + rows[off..off + pageSize] == rows[..off + pageSize];
    } else {
      assert rows[..off] + rows[off..] == rows;
    }
  }

  /** Walking the pages 1..TotalPages returns every row once, in order. */
  lemma PagesPartitionRows<T>(rows: seq<T>, pageSize: nat)
    requires pageSize > 0
    ensures Pages(rows, pageSize, TotalPages(|rows|, pageSize)) == rows
  {
    var n := TotalPages(|rows|, pageSize);
    PagesPrefix(rows, pageSize, n);
    if n * pageSize <= |rows| {
      assert rows[..|rows|] == rows;
    }
  }
}
