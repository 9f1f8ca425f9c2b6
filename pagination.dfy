/**
 * The table's visible rows: `campaigns.slice(page * rowsPerPage, page * rowsPerPage + rowsPerPage)`,
 * with `Array.prototype.slice` clamping both ends to the list.
 */
module Pagination {

  function Min(a: int, b: int): int { if a <= b then a else b }
  function Max(a: int, b: int): int { if a <= b then b else a }

  /** `s.slice(start, end)` for non-negative bounds: both are clamped to `|s|`, and an end before the start gives nothing. */
  function Slice<T>(s: seq<T>, start: nat, end: nat): (r: seq<T>)
    ensures |r| == Max(0, Min(end, |s|) - start)
    ensures forall k :: 0 <= k < |r| ==> start + k < |s| && r[k] == s[start + k]
  {
    if start >= |s| || end <= start then [] else s[start..Min(end, |s|)]
  }

  /**
   * The rows of page `page`: never more than `rowsPerPage`, none past the end of the
   * list, and each one the record at its position on that page.
   */
  function PageRows<T>(rows: seq<T>, page: nat, rowsPerPage: nat): (r: seq<T>)
    ensures |r| == Min(rowsPerPage, Max(0, |rows| - page * rowsPerPage))
    ensures forall k :: 0 <= k < |r| ==> page * rowsPerPage + k < |rows| && r[k] == rows[page * rowsPerPage + k]
  {
    Slice(rows, page * rowsPerPage, page * rowsPerPage + rowsPerPage)
  }

  /** Every record appears on the page its index falls into, at its offset within that page. */
  lemma RowOnItsPage<T>(rows: seq<T>, i: nat, rowsPerPage: nat)
    requires i < |rows| && rowsPerPage > 0
    ensures i % rowsPerPage < |PageRows(rows, i / rowsPerPage, rowsPerPage)|
    ensures PageRows(rows, i / rowsPerPage, rowsPerPage)[i % rowsPerPage] == rows[i]
  {
  }

  /** The first `n` pages, one after the other. */
  function FirstPages<T>(rows: seq<T>, n: nat, rowsPerPage: nat): seq<T> {
    if n == 0 then [] else FirstPages(rows, n - 1, rowsPerPage) + PageRows(rows, n - 1, rowsPerPage)
  }

  /**
   * Paging neither drops, repeats nor reorders records: the first `n` pages, read
   * in order, are exactly the first `n * rowsPerPage` records (or all of them).
   */
  lemma {:induction false} PagesTile<T>(rows: seq<T>, n: nat, rowsPerPage: nat)
    ensures FirstPages(rows, n, rowsPerPage) == rows[..Min(n * rowsPerPage, |rows|)]
  {
    if n > 0 {
      PagesTile(rows, n - 1, rowsPerPage);
      var start := (n - 1) * rowsPerPage;
      NextPageStart(n, rowsPerPage);
      SliceExtends(rows, start, start + rowsPerPage);
    }
  }

  /** Page `n` starts one page size after page `n - 1`. */
  lemma NextPageStart(n: nat, rowsPerPage: nat)
    requires n > 0
    ensures n * rowsPerPage == (n - 1) * rowsPerPage + rowsPerPage
  {
  }

  /** The records before `start`, followed by `slice(start, end)`, are the records before `end`. */
  lemma SliceExtends<T>(rows: seq<T>, start: nat, end: nat)
    requires start <= end
    ensures rows[..Min(start, |rows|)] + Slice(rows, start, end) == rows[..Min(end, |rows|)]
  {
  }
}
