/**
 * The admin returns table: the display row of each return, the ride
 * numbers, one row per rider carrying the latest return and the rider's
 * deposit total, the deposit/date/search filter, the summary cards and the
 * pages.
 */
module ReturnsTable {
  import opened Strings
  import opened Seqs
  import opened Tables
  import opened Sorting
  import opened Grouping
  import RideLabels

  /** The parsed `return_meta` object; an absent or unparsable one gives `""`. */
  datatype ReturnMeta = ReturnMeta(feedback: string)

  /** A return as listed; a missing text field is `""`, a missing amount 0. */
  datatype Return = Return(
    rentalId: string,
    riderId: string,
    riderMobile: string,
    riderCode: string,
    riderFullName: string,
    startTime: Stamp,
    returnedAt: Stamp,
    returnCreatedAt: Stamp,
    depositReturned: bool,
    depositReturnedAmount: int,
    bikeId: string,
    batteryId: string,
    conditionNotes: string,
    meta: ReturnMeta)

  /** A display row: the return and what `baseRows` and `withIds` add. */
  datatype ReturnRow = ReturnRow(
    ret: Return,
    riderFullNameDisplay: string,
    riderMobileDisplay: string,
    depositReturnedDisplay: string,
    depositValue: int,
    feedback: string,
    rentalIdDisplay: string)

  /** The rider key of both the ride numbering and the per-rider rows. */
  function RiderKey(r: Return): string {
    Trim(Or(Or(r.riderId, r.riderMobile), r.riderCode))
  }

  function RentalIdOf(r: Return): string {
    r.rentalId
  }

  function StartOf(r: Return): int {
    TimeKey(r.startTime)
  }

  /** `rentalIdMap`, keyed by the rental id of each return. */
  function ReturnLabels(data: seq<Return>): map<string, string> {
    RideLabels.RideLabels(data, RiderKey, RentalIdOf, StartOf)
  }

  /** One element of `baseRows` followed by its `withIds` step. */
  function RowOf(r: Return, labels: map<string, string>, format: string -> string): ReturnRow {
    ReturnRow(r,
              Or(r.riderFullName, "-"),
              Or(r.riderMobile, "-"),
              if r.depositReturned then "Returned" else "-",
              if r.depositReturned then r.depositReturnedAmount else 0,
              Trim(r.meta.feedback),
              if r.rentalId in labels && labels[r.rentalId] != "" then labels[r.rentalId] else format(r.rentalId))
  }

  /** `withIds`, with `formatRentalId` as `format`. */
  function Rows(data: seq<Return>, format: string -> string): (rows: seq<ReturnRow>)
    ensures |rows| == |data|
    ensures forall i :: 0 <= i < |data| ==> rows[i] == RowOf(data[i], ReturnLabels(data), format)
  {
    seq(|data|, i requires 0 <= i < |data| => RowOf(data[i], ReturnLabels(data), format))
  }

  function DepositValue(r: ReturnRow): int {
    r.depositValue
  }

  function ReturnedAmount(r: ReturnRow): int {
    r.ret.depositReturnedAmount
  }

  predicate DepositWasReturned(r: ReturnRow) {
    r.ret.depositReturned
  }

  /** A return counts its amount only when its deposit was returned, so the
      deposit values add up to the returned amounts of exactly those returns. */
  lemma DepositValuesSum(data: seq<Return>, format: string -> string)
    ensures SumBy(Rows(data, format), DepositValue) == SumBy(Filter(Rows(data, format), DepositWasReturned), ReturnedAmount)
  {
    var rows := Rows(data, format);
    forall r | r in rows
      ensures r.depositValue == (if r.ret.depositReturned then r.ret.depositReturnedAmount else 0)
    {
      var i :| 0 <= i < |rows| && rows[i] == r;
    }
    SumWhereRows(rows);
  }

  lemma {:induction false} SumWhereRows(rows: seq<ReturnRow>)
    requires forall r :: r in rows ==> r.depositValue == (if r.ret.depositReturned then r.ret.depositReturnedAmount else 0)
    ensures SumBy(rows, DepositValue) == SumBy(Filter(rows, DepositWasReturned), ReturnedAmount)
  {
    if rows != [] {
      assert rows[0] in rows;
      assert forall r :: r in rows[1..] ==> r in rows;
      SumWhereRows(rows[1..]);
      var t := Filter(rows[1..], DepositWasReturned);
      if DepositWasReturned(rows[0]) {
        assert Filter(rows, DepositWasReturned) == [rows[0]] + t;
        assert ([rows[0]] + t)[1..] == t;
      } else {
        assert Filter(rows, DepositWasReturned) == t;
      }
    }
  }

  /** A row with a rider key shows its ride number: its position, from 1,
      among that rider's rentals ordered by start. */
  lemma RowShowsRideNumber(data: seq<Return>, format: string -> string, i: nat)
    requires RideLabels.UniqueIds(data, RentalIdOf)
    requires i < |data| && RiderKey(data[i]) != ""
    ensures var sorted := SortBy(Members(data, RiderKey, RiderKey(data[i])), StartOf);
      exists j :: 0 <= j < |sorted| && sorted[j] == data[i]
        && Rows(data, format)[i].rentalIdDisplay == RideLabels.Label(j + 1)
  {
    RideLabels.RowLabel(data, RiderKey, RentalIdOf, StartOf, i);
  }

  // ---------------------------------------------------------------------
  // One row per rider
  // ---------------------------------------------------------------------

  function RowKey(r: ReturnRow): string {
    RiderKey(r.ret)
  }

  /** `Date.parse(r.returned_at || r.return_created_at)`, as a sort key. */
  function ReturnTimeKey(r: ReturnRow): int {
    TimeKey(if r.ret.returnedAt != Missing then r.ret.returnedAt else r.ret.returnCreatedAt)
  }

  /** A rider's row: the latest return's fields, the rider key, the number
      of returns, the deposit total and every return newest first. */
  datatype RiderReturns = RiderReturns(
    latest: ReturnRow,
    riderKey: string,
    returnsCount: nat,
    depositTotal: int,
    allReturns: seq<ReturnRow>)

  function RiderRowOf(k: string, list: seq<ReturnRow>): RiderReturns
    requires list != []
  {
    var sorted := SortDescBy(list, ReturnTimeKey);
    RiderReturns(sorted[0], k, |list|, SumBy(list, DepositValue), sorted)
  }

  /** The latest return is one of the rider's and none is later; the count
      is the number of returns; the total is the sum of their deposit
      values; every return is listed, newest first. */
  lemma RiderRowOfFacts(k: string, list: seq<ReturnRow>)
    requires list != []
    ensures RiderRowOf(k, list).riderKey == k
    ensures RiderRowOf(k, list).latest in list
    ensures forall r :: r in list ==> ReturnTimeKey(r) <= ReturnTimeKey(RiderRowOf(k, list).latest)
    ensures RiderRowOf(k, list).returnsCount == |list|
    ensures RiderRowOf(k, list).depositTotal == SumBy(list, DepositValue)
    ensures multiset(RiderRowOf(k, list).allReturns) == multiset(list)
    ensures SortedDescBy(RiderRowOf(k, list).allReturns, ReturnTimeKey)
  {
    var sorted := SortDescBy(list, ReturnTimeKey);
    assert sorted[0] in multiset(list);
    forall r | r in list ensures ReturnTimeKey(r) <= ReturnTimeKey(sorted[0]) {
      HeadIsGreatest(list, ReturnTimeKey, r);
    }
  }

  /** The rows of the listed keys, in key order. */
  function RiderRowsOf(keys: seq<string>, groups: map<string, seq<ReturnRow>>): (r: seq<RiderReturns>)
    requires forall k :: k in keys ==> k in groups && groups[k] != []
    ensures |r| == |keys|
    ensures forall i :: 0 <= i < |keys| ==> r[i] == RiderRowOf(keys[i], groups[keys[i]])
  {
    seq(|keys|, i requires 0 <= i < |keys| => RiderRowOf(keys[i], groups[keys[i]]))
  }

  /** `rows`: one row per rider key, in order of first appearance. */
  function RiderRows(rows: seq<ReturnRow>): seq<RiderReturns> {
    GroupsNonEmpty(rows, RowKey);
    RiderRowsOf(KeysInOrder(rows, RowKey), GroupMap(rows, RowKey))
  }

  /** `rows` as the screen computes it: the map filled in a `forEach`, then
      one row built per entry. */
  method BuildRiderRows(rows: seq<ReturnRow>) returns (built: seq<RiderReturns>)
    ensures built == RiderRows(rows)
  {
    var keys, groups := GroupBy(rows, RowKey);
    GroupsNonEmpty(rows, RowKey);
    built := RowPerRider(keys, groups);
  }

  /** The loop over the map's entries. */
  method RowPerRider(keys: seq<string>, groups: map<string, seq<ReturnRow>>) returns (built: seq<RiderReturns>)
    requires forall k :: k in keys ==> k in groups && groups[k] != []
    ensures built == RiderRowsOf(keys, groups)
  {
    built := [];
    for i := 0 to |keys|
      invariant |built| == i
      invariant forall j :: 0 <= j < i ==> built[j] == RiderRowOf(keys[j], groups[keys[j]])
    {
      built := built + [RiderRowOf(keys[i], groups[keys[i]])];
    }
  }

  /** Each rider row stands for the returns with its key: a blank key has
      none, the count and the total are over exactly those returns, and
      the latest of them is shown. */
  lemma RiderRowsMembers(rows: seq<ReturnRow>, i: nat)
    requires i < |RiderRows(rows)|
    ensures RiderRows(rows)[i].riderKey != ""
    ensures forall x :: x in RiderRows(rows)[i].allReturns <==> x in rows && RowKey(x) == RiderRows(rows)[i].riderKey
    ensures RiderRows(rows)[i].returnsCount == |Members(rows, RowKey, RiderRows(rows)[i].riderKey)|
    ensures RiderRows(rows)[i].depositTotal == SumBy(Members(rows, RowKey, RiderRows(rows)[i].riderKey), DepositValue)
    ensures RiderRows(rows)[i].latest in rows && RowKey(RiderRows(rows)[i].latest) == RiderRows(rows)[i].riderKey
    ensures forall x :: x in rows && RowKey(x) == RiderRows(rows)[i].riderKey ==>
      ReturnTimeKey(x) <= ReturnTimeKey(RiderRows(rows)[i].latest)
  {
    var keys := KeysInOrder(rows, RowKey);
    var k := keys[i];
    GroupsNonEmpty(rows, RowKey);
    KeysNonBlank(rows, RowKey);
    var list := GroupMap(rows, RowKey)[k];
    assert list == Members(rows, RowKey, k);
    RiderRowOfFacts(k, list);
    forall x ensures x in list <==> x in rows && RowKey(x) == k {
      MemberIff(rows, RowKey, k, x);
    }
    forall x ensures x in RiderRows(rows)[i].allReturns <==> x in list {
      assert x in RiderRows(rows)[i].allReturns <==> x in multiset(list);
    }
  }

  /** Every return with a rider key is in exactly one rider row. */
  lemma ReturnInOneRow(rows: seq<ReturnRow>, x: ReturnRow)
    requires x in rows && RowKey(x) != ""
    ensures exists i :: 0 <= i < |RiderRows(rows)| && RiderRows(rows)[i].riderKey == RowKey(x)
    ensures forall i, j :: 0 <= i < j < |RiderRows(rows)| ==> RiderRows(rows)[i].riderKey != RiderRows(rows)[j].riderKey
  {
    var keys := KeysInOrder(rows, RowKey);
    KeysInOrderFacts(rows, RowKey);
    var a :| 0 <= a < |rows| && rows[a] == x;
    assert RowKey(x) in keys;
    var i :| 0 <= i < |keys| && keys[i] == RowKey(x);
    GroupsNonEmpty(rows, RowKey);
    assert RiderRows(rows)[i].riderKey == keys[i];
  }

  function ReturnsCount(g: RiderReturns): int {
    g.returnsCount
  }

  function DepositTotal(g: RiderReturns): int {
    g.depositTotal
  }

  lemma {:induction false} RiderRowsDeposits(keys: seq<string>, rows: seq<ReturnRow>)
    requires forall k :: k in keys ==> k in GroupMap(rows, RowKey) && GroupMap(rows, RowKey)[k] != []
    ensures SumBy(RiderRowsOf(keys, GroupMap(rows, RowKey)), DepositTotal) == SumBy(keys, GroupSum(rows, RowKey, DepositValue))
  {
    if keys != [] {
      var groups := GroupMap(rows, RowKey);
      RiderRowsDeposits(keys[1..], rows);
      assert RiderRowsOf(keys, groups)[1..] == RiderRowsOf(keys[1..], groups);
      assert groups[keys[0]] == Members(rows, RowKey, keys[0]);
      assert RiderRowsOf(keys, groups)[0].depositTotal == SumBy(groups[keys[0]], DepositValue);
    }
  }

  lemma {:induction false} RiderRowsCounts(keys: seq<string>, rows: seq<ReturnRow>)
    requires forall k :: k in keys ==> k in GroupMap(rows, RowKey) && GroupMap(rows, RowKey)[k] != []
    ensures SumBy(RiderRowsOf(keys, GroupMap(rows, RowKey)), ReturnsCount) == SumBy(keys, k => |Members(rows, RowKey, k)|)
  {
    if keys != [] {
      var groups := GroupMap(rows, RowKey);
      RiderRowsCounts(keys[1..], rows);
      assert RiderRowsOf(keys, groups)[1..] == RiderRowsOf(keys[1..], groups);
      assert groups[keys[0]] == Members(rows, RowKey, keys[0]);
      assert RiderRowsOf(keys, groups)[0].returnsCount == |groups[keys[0]]|;
    }
  }

  /** The rider rows account for every keyed return once: the counts add up
      to the number of keyed returns and the deposit totals to their
      deposit values. */
  lemma RiderRowsAddUp(rows: seq<ReturnRow>)
    ensures SumBy(RiderRows(rows), ReturnsCount) == |Keyed(rows, RowKey)|
    ensures SumBy(RiderRows(rows), DepositTotal) == SumBy(Keyed(rows, RowKey), DepositValue)
  {
    GroupsNonEmpty(rows, RowKey);
    RiderRowsCounts(KeysInOrder(rows, RowKey), rows);
    RiderRowsDeposits(KeysInOrder(rows, RowKey), rows);
    GroupSizesSum(rows, RowKey);
    GroupSumsSum(rows, RowKey, DepositValue);
  }

  // ---------------------------------------------------------------------
  // Filter, summary, pages
  // ---------------------------------------------------------------------

  /** The search box, the deposit select and the date range. */
  datatype Filters = Filters(search: string, deposit: string, from: DayBound, to: DayBound)

  function Query(search: string): string {
    Lower(Trim(search))
  }

  /** The seven fields the search looks at, lower-cased and joined. */
  function Haystack(g: RiderReturns): string {
    var r := g.latest;
    Join([Lower(r.riderFullNameDisplay), Lower(r.riderMobileDisplay), Lower(r.ret.riderCode), Lower(r.ret.bikeId),
          Lower(r.ret.batteryId), Lower(r.ret.conditionNotes), Lower(r.feedback)], " | ")
  }

  /** `returned` needs a non-zero total, `not_returned` a zero one. */
  predicate DepositPasses(g: RiderReturns, deposit: string) {
    !(deposit == "returned" && g.depositTotal == 0) && !(deposit == "not_returned" && g.depositTotal != 0)
  }

  /** The test of `filteredRows`; the date range applies to the latest
      return's `returned_at`. */
  predicate Passes(g: RiderReturns, f: Filters) {
    && DepositPasses(g, f.deposit)
    && IsWithinDateRange(g.latest.ret.returnedAt, f.from, f.to)
    && (Query(f.search) == "" || Contains(Haystack(g), Query(f.search)))
  }

  function FilteredRows(rows: seq<RiderReturns>, f: Filters): seq<RiderReturns> {
    Filter(rows, g => Passes(g, f))
  }

  /** The filter keeps exactly the passing rows, in their order; the deposit
      options split the rows by whether any deposit was returned. */
  lemma FilteredRowsFacts(rows: seq<RiderReturns>, f: Filters)
    ensures forall g :: g in FilteredRows(rows, f) <==> g in rows && Passes(g, f)
    ensures IsSubsequence(FilteredRows(rows, f), rows)
    ensures f.deposit == "returned" ==> forall g :: g in FilteredRows(rows, f) ==> g.depositTotal != 0
    ensures f.deposit == "not_returned" ==> forall g :: g in FilteredRows(rows, f) ==> g.depositTotal == 0
    ensures f.deposit == "all" && f.from == Blank && f.to == Blank && Query(f.search) == "" ==>
      FilteredRows(rows, f) == rows
  {
    FilterIsSubsequence(rows, g => Passes(g, f));
    if f.deposit == "all" && f.from == Blank && f.to == Blank && Query(f.search) == "" {
      FilterAll(rows, g => Passes(g, f));
    }
  }

  datatype Summary = Summary(totalReturns: nat, depositReturnedTotal: int)

  /** `summary`, over the filtered and sorted rows. */
  function SummaryOf(shown: seq<RiderReturns>): Summary {
    Summary(|shown|, SumBy(shown, DepositTotal))
  }

  /** The summary does not depend on the order `sortRows` puts the rows in. */
  lemma SummaryIgnoresOrder(a: seq<RiderReturns>, b: seq<RiderReturns>)
    requires multiset(a) == multiset(b)
    ensures SummaryOf(a) == SummaryOf(b)
  {
    SumByPermutation(a, b, DepositTotal);
    assert |a| == |multiset(a)| == |multiset(b)| == |b|;
  }

  /** With every filter blank, the deposit card shows the deposit returned
      on every return that has a rider key. */
  lemma UnfilteredSummary(rows: seq<ReturnRow>, f: Filters)
    requires f.deposit == "all" && f.from == Blank && f.to == Blank && Query(f.search) == ""
    ensures SummaryOf(FilteredRows(RiderRows(rows), f)).totalReturns == |KeysInOrder(rows, RowKey)|
    ensures SummaryOf(FilteredRows(RiderRows(rows), f)).depositReturnedTotal == SumBy(Keyed(rows, RowKey), DepositValue)
  {
    FilteredRowsFacts(RiderRows(rows), f);
    RiderRowsAddUp(rows);
  }

  /** The page cursor and its reset on a filter change. */
  class ReturnsScreen {
    var filters: Filters
    var pager: Pager

    constructor ()
      ensures filters == Filters("", "all", Blank, Blank)
      ensures fresh(pager) && pager.page == 1
    {
      filters := Filters("", "all", Blank, Blank);
      pager := new Pager();
    }

    /** Setting any filter puts the table back on page 1. */
    method SetFilters(f: Filters)
      modifies this, pager
      ensures filters == f && pager == old(pager) && pager.page == 1
    {
      filters := f;
      pager.ResetToFirst();
    }

    /** The rows on the current page: at most ten of the shown rows. */
    method PageOf(shown: seq<RiderReturns>) returns (page: seq<RiderReturns>)
      requires pager.page >= 1
      ensures page == PageRows(shown, pager.page)
      ensures |page| <= PageSize
    {
      page := PageRows(shown, pager.page);
    }
  }
}
