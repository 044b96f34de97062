/**
 * What the admin tables share: timestamps as `Date.parse` sees them, the
 * inclusive day-range filter, 10-row pagination and the page cursor.
 *
 * `Date.parse` is abstracted: a stored time is `Missing` (a falsy value),
 * `Bad` (a non-empty string that parses to NaN) or `At(ms)`. A from/to
 * filter bound is `Blank` (the date input is empty), `Invalid` (the input is
 * set but `${from}T00:00:00` / `${to}T23:59:59.999` does not parse) or
 * `Valid(ms)`, the start of the from-day or the last millisecond of the to-day.
 */
module Tables {

  datatype Stamp = Missing | Bad | At(ms: int)

  datatype DayBound = Blank | Invalid | Valid(ms: int)

  /** `Date.parse(value) || 0`: the sort key of a time, 0 when it does not parse. */
  function TimeKey(s: Stamp): int {
    if s.At? then s.ms else 0
  }

  /** `isWithinDateRange(value, from, to)`. */
  function IsWithinDateRange(value: Stamp, from: DayBound, to: DayBound): (r: bool)
    // without any bound every row passes, even one without a time
    ensures from.Blank? && to.Blank? ==> r
    // with a bound, a row whose time is missing or unparseable never passes
    ensures !(from.Blank? && to.Blank?) && !value.At? ==> !r
    // otherwise: inclusive on both ends, and a bound that does not parse is ignored
    ensures value.At? ==> (r <==> (from.Valid? ==> from.ms <= value.ms) && (to.Valid? ==> value.ms <= to.ms))
  {
    if from.Blank? && to.Blank? then true
    else if value.Missing? then false
    else if value.Bad? then false
    else if from.Valid? && value.ms < from.ms then false
    else if to.Valid? && value.ms > to.ms then false
    else true
  }

  /** Widening a range never drops a row: moving the from-bound earlier or the
      to-bound later keeps every row that passed. */
  lemma WiderRangeKeepsRows(value: Stamp, from: int, from': int, to: DayBound)
    requires from' <= from
    requires IsWithinDateRange(value, Valid(from), to)
    ensures IsWithinDateRange(value, Valid(from'), to)
  {
  }

  /** A range whose from-day starts after its to-day ends passes nothing. */
  lemma InvertedRangeIsEmpty(value: Stamp, from: int, to: int)
    requires to < from
    ensures !IsWithinDateRange(value, Valid(from), Valid(to))
  {
  }

  const PageSize: nat := 10

  /** `Math.max(1, Math.ceil(n / pageSize))`: the fewest pages of ten that hold `n` rows, and at least one. */
  function TotalPages(n: nat): (r: nat)
    ensures r >= 1
    ensures n <= r * PageSize
    ensures r == 1 || (r - 1) * PageSize < n
  {
    if n == 0 then 1 else (n + PageSize - 1) / PageSize
  }

  /** `rows.slice((page - 1) * pageSize, (page - 1) * pageSize + pageSize)`. */
  function PageRows<T>(rows: seq<T>, page: int): (r: seq<T>)
    requires page >= 1
    ensures |r| <= PageSize
    ensures forall i :: 0 <= i < |r| ==> (page - 1) * PageSize + i < |rows| && r[i] == rows[(page - 1) * PageSize + i]
    ensures (page - 1) * PageSize + PageSize <= |rows| ==> |r| == PageSize
    ensures (page - 1) * PageSize >= |rows| ==> r == []
  {
    var start := (page - 1) * PageSize;
    if start >= |rows| then []
    else if start + PageSize <= |rows| then rows[start..start + PageSize]
    else rows[start..]
  }

  /** Every row is shown on exactly one page, and that page exists:
      row `i` is entry `i % 10` of page `i / 10 + 1`. */
  lemma RowOnItsPage<T>(rows: seq<T>, i: nat)
    requires i < |rows|
    ensures 1 <= i / PageSize + 1 <= TotalPages(|rows|)
    ensures i % PageSize < |PageRows(rows, i / PageSize + 1)|
    ensures PageRows(rows, i / PageSize + 1)[i % PageSize] == rows[i]
  {
    var q := i / 10;
    var t := TotalPages(|rows|);
    assert i == q * 10 + i % 10;
    assert q * 10 < t * 10;
    assert q < t;
  }

  /** The last page is never empty unless there are no rows at all, so
      clamping the page to `TotalPages` always lands on rows. */
  lemma LastPageNonEmpty<T>(rows: seq<T>)
    requires |rows| > 0
    ensures PageRows(rows, TotalPages(|rows|)) != []
  {
    var t := TotalPages(|rows|);
    assert (t - 1) * PageSize < |rows|;
  }

  /**
   * The page cursor of a table. Every filter change puts it back to page 1
   * (the `setPage(1)` effect), the pager buttons move it by one within
   * `[1, totalPages]`, and the clamp effect pulls it down to `totalPages`.
   */
  class Pager {
    var page: int

    ghost predicate Valid()
      reads this
    {
      page >= 1
    }

    constructor ()
      ensures Valid() && page == 1
    {
      page := 1;
    }

    /** The effect run when a search or filter input changes. */
    method ResetToFirst()
      modifies this
      ensures Valid() && page == 1
    {
      page := 1;
    }

    /** `setPage(p => Math.max(1, p - 1))`. */
    method Prev()
      requires Valid()
      modifies this
      ensures Valid()
      ensures old(page) > 1 ==> page == old(page) - 1
      ensures old(page) == 1 ==> page == 1
    {
      page := if page - 1 > 1 then page - 1 else 1;
    }

    /** `setPage(p => Math.min(totalPages, p + 1))`. */
    method Next(totalPages: nat)
      requires Valid() && totalPages >= 1
      modifies this
      ensures Valid()
      ensures old(page) < totalPages ==> page == old(page) + 1
      ensures old(page) >= totalPages ==> page == totalPages
    {
      page := if totalPages < page + 1 then totalPages else page + 1;
    }

    /** `if (page > totalPages) setPage(totalPages)`. */
    method Clamp(totalPages: nat)
      requires Valid() && totalPages >= 1
      modifies this
      ensures Valid() && page <= totalPages
      ensures old(page) <= totalPages ==> page == old(page)
      ensures old(page) > totalPages ==> page == totalPages
    {
      if page > totalPages {
        page := totalPages;
      }
    }
  }
}
