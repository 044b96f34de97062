/**
 * The admin riders table: the loop that fetches every page of riders, the
 * status/type/date/search filter, the page-selection checkbox and the file
 * name of a downloaded export.
 */
module RidersTable {
  import opened Wrappers
  import opened Strings
  import opened Seqs
  import opened Tables
  import Uri
  import ReceiptPdf

  /** A rider row; a missing text field is `""` (`String(v || "")`). */
  datatype Rider = Rider(
    id: string,
    fullName: string,
    mobile: string,
    aadhaar: string,
    status: string,
    rideStatus: string,
    riderType: string,
    createdAt: Stamp)

  // ---------------------------------------------------------------------
  // Fetching every page
  // ---------------------------------------------------------------------

  /** The server caps a page at 100 rows. */
  const PageLimit: nat := 100

  /** The loop's guard against a server that never stops answering. */
  const MaxPages: nat := 2000

  /** One answer of `/api/riders?page=…`: its rows (`[]` when `data` is not an
      array) and `Number(totalCount)` when that is finite. */
  datatype RidersPage = RidersPage(rows: seq<Rider>, reportedTotal: Option<int>)

  /** The rows of pages `1..n`, in page order. */
  function Fetched(fetch: nat -> RidersPage, n: nat): seq<Rider> {
    if n == 0 then [] else Fetched(fetch, n - 1) + fetch(n).rows
  }

  /** A reported total the loop accepts: finite and not negative. */
  function AcceptedTotal(t: Option<int>): Option<nat> {
    if t.Some? && t.value >= 0 then Some(t.value) else None
  }

  /** The total the loop knows after page `n`: the first accepted one. */
  function KnownTotal(fetch: nat -> RidersPage, n: nat): Option<nat> {
    if n == 0 then None
    else if KnownTotal(fetch, n - 1).Some? then KnownTotal(fetch, n - 1)
    else AcceptedTotal(fetch(n).reportedTotal)
  }

  /** The loop stops after page `n`: the page is empty, the known total is
      reached, or the page is short. */
  predicate StopsAfter(fetch: nat -> RidersPage, n: nat)
    requires n >= 1
  {
    var rows := fetch(n).rows;
    |rows| == 0
    || (KnownTotal(fetch, n).Some? && |Fetched(fetch, n)| >= KnownTotal(fetch, n).value)
    || |rows| < PageLimit
  }

  /** The pages the server answered, reading a failed request as an empty
      page; only the pages before a failure are ever read through it. */
  function Answered(reply: nat -> Outcome<RidersPage>): nat -> RidersPage {
    (n: nat) => if reply(n).Done? then reply(n).value else RidersPage([], None)
  }

  /** `loadRiders`: pages are fetched from 1 on and appended in order until
      the first page after which the loop stops, or page 2000. `reply(n)` is
      the answer to the request for page `n`. A request that fails leaves the
      `try` before `setRiders`: the result is then `None`, the rows already
      fetched are dropped and the table keeps the riders it had. */
  method LoadRiders(reply: nat -> Outcome<RidersPage>) returns (riders: Option<seq<Rider>>, pages: nat)
    ensures 1 <= pages <= MaxPages
    ensures forall j :: 1 <= j < pages ==> reply(j).Done? && !StopsAfter(Answered(reply), j)
    ensures reply(pages).Failed? ==> riders.None?
    ensures reply(pages).Done? ==>
      riders == Some(Fetched(Answered(reply), pages)) && (StopsAfter(Answered(reply), pages) || pages == MaxPages)
  {
    ghost var fetch := Answered(reply);
    var nextRows := [];
    var nextPage := 1;
    var totalCount: Option<nat> := None;
    while nextPage <= MaxPages
      invariant 1 <= nextPage <= MaxPages + 1
      invariant nextRows == Fetched(fetch, nextPage - 1)
      invariant totalCount == KnownTotal(fetch, nextPage - 1)
      invariant forall j :: 1 <= j < nextPage ==> reply(j).Done? && !StopsAfter(fetch, j)
      decreases MaxPages + 1 - nextPage
    {
      var r := reply(nextPage);
      if r.Failed? {
        return None, nextPage;
      }
      var rows := r.value.rows;
      if totalCount.None? {
        totalCount := AcceptedTotal(r.value.reportedTotal);
      }
      nextRows := nextRows + rows;
      if |rows| == 0 || (totalCount.Some? && |nextRows| >= totalCount.value) || |rows| < PageLimit {
        return Some(nextRows), nextPage;
      }
      nextPage := nextPage + 1;
    }
    riders, pages := Some(nextRows), MaxPages;
  }

  /** Every page before the last one was full, so the rows before the last
      page number at least 100 per page. */
  lemma {:induction false} FullPagesBefore(fetch: nat -> RidersPage, n: nat)
    requires n >= 1
    requires forall j :: 1 <= j < n ==> !StopsAfter(fetch, j)
    ensures |Fetched(fetch, n - 1)| >= PageLimit * (n - 1)
    ensures forall j :: 1 <= j < n ==> |fetch(j).rows| >= PageLimit
  {
    if n > 1 {
      FullPagesBefore(fetch, n - 1);
      assert !StopsAfter(fetch, n - 1);
    }
  }

  /** Pages are appended in order: an earlier page's rows lead a later one's. */
  lemma {:induction false} FetchedPrefix(fetch: nat -> RidersPage, m: nat, n: nat)
    requires m <= n
    ensures Fetched(fetch, m) <= Fetched(fetch, n)
    decreases n - m
  {
    if m < n {
      FetchedPrefix(fetch, m, n - 1);
    }
  }

  // ---------------------------------------------------------------------
  // Filtering
  // ---------------------------------------------------------------------

  /** The filter inputs; `"all"` switches the status or type filter off. */
  datatype Filters = Filters(search: string, status: string, riderType: string, from: DayBound, to: DayBound)

  /** The lower-cased fields a search looks at, joined by `" | "`. */
  function Haystack(r: Rider): string {
    Join([Lower(r.fullName), Lower(r.mobile), Lower(r.aadhaar), Lower(r.status),
          Lower(r.rideStatus), Lower(r.riderType), Lower(r.id)], " | ")
  }

  /** The search text as compared: trimmed and lower-cased. */
  function Query(search: string): string {
    Lower(Trim(search))
  }

  /** The row test of `filteredRows`. */
  predicate Matches(r: Rider, f: Filters) {
    (f.status == "all" || Lower(r.status) == f.status)
    && (f.riderType == "all" || Lower(r.riderType) == f.riderType)
    && IsWithinDateRange(r.createdAt, f.from, f.to)
    && (Query(f.search) == "" || Contains(Haystack(r), Query(f.search)))
  }

  /** `filteredRows`. */
  function FilteredRows(riders: seq<Rider>, f: Filters): seq<Rider> {
    Filter(riders, r => Matches(r, f))
  }

  /** The filter keeps exactly the matching rows, in their order. */
  lemma FilteredRowsFacts(riders: seq<Rider>, f: Filters)
    ensures forall r :: r in FilteredRows(riders, f) <==> r in riders && Matches(r, f)
    ensures IsSubsequence(FilteredRows(riders, f), riders)
  {
    FilterIsSubsequence(riders, r => Matches(r, f));
  }

  /** A query found in the name, mobile, or id of a row that passes the other
      filters keeps that row. */
  lemma QueryInFieldKeepsRow(r: Rider, f: Filters)
    requires (f.status == "all" || Lower(r.status) == f.status)
    requires (f.riderType == "all" || Lower(r.riderType) == f.riderType)
    requires IsWithinDateRange(r.createdAt, f.from, f.to)
    requires Contains(Lower(r.fullName), Query(f.search)) || Contains(Lower(r.mobile), Query(f.search))
          || Contains(Lower(r.id), Query(f.search))
    ensures Matches(r, f)
  {
    var parts := [Lower(r.fullName), Lower(r.mobile), Lower(r.aadhaar), Lower(r.status),
                  Lower(r.rideStatus), Lower(r.riderType), Lower(r.id)];
    var q := Query(f.search);
    if Contains(Lower(r.fullName), q) {
      ContainsInJoin(parts, " | ", 0, q);
    } else if Contains(Lower(r.mobile), q) {
      ContainsInJoin(parts, " | ", 1, q);
    } else {
      ContainsInJoin(parts, " | ", 6, q);
    }
  }

  // ---------------------------------------------------------------------
  // Selecting the rows of a page
  // ---------------------------------------------------------------------

  /** The ids of the rows, in order: `rows.map(r => r.id)`. */
  function IdsOf(rows: seq<Rider>): (r: seq<string>)
    ensures |r| == |rows| && forall k :: 0 <= k < |rows| ==> r[k] == rows[k].id
  {
    seq(|rows|, k requires 0 <= k < |rows| => rows[k].id)
  }

  /** `pageRows.map(r => r.id).filter(Boolean)`: the page rows' non-blank
      ids, in the rows' order, and nothing else. */
  function PageRowIds(pageRows: seq<Rider>): (r: seq<string>)
    ensures r == Filter(IdsOf(pageRows), id => id != "")
    ensures forall x :: x in r <==> x != "" && exists k :: 0 <= k < |pageRows| && pageRows[k].id == x
    ensures IsSubsequence(r, IdsOf(pageRows))
  {
    FilterIsSubsequence(IdsOf(pageRows), id => id != "");
    if pageRows == [] then []
    else
      assert IdsOf(pageRows)[1..] == IdsOf(pageRows[1..]);
      (if pageRows[0].id != "" then [pageRows[0].id] else []) + PageRowIds(pageRows[1..])
  }

  /** How many of the page's ids are selected. */
  function SelectedOnPage(pageIds: seq<string>, selected: seq<string>): nat {
    CountBy(pageIds, id => id in selected)
  }

  predicate AllOnPageSelected(pageIds: seq<string>, selected: seq<string>) {
    |pageIds| > 0 && SelectedOnPage(pageIds, selected) == |pageIds|
  }

  predicate SomeOnPageSelected(pageIds: seq<string>, selected: seq<string>) {
    SelectedOnPage(pageIds, selected) > 0 && SelectedOnPage(pageIds, selected) < |pageIds|
  }

  /** The header checkbox: checked exactly when the page has ids and all are
      selected, indeterminate exactly when some but not all are, and never
      both. */
  lemma PageFlags(pageIds: seq<string>, selected: seq<string>)
    ensures AllOnPageSelected(pageIds, selected) <==>
      |pageIds| > 0 && forall i :: 0 <= i < |pageIds| ==> pageIds[i] in selected
    ensures SomeOnPageSelected(pageIds, selected) <==>
      (exists i :: 0 <= i < |pageIds| && pageIds[i] in selected)
      && (exists i :: 0 <= i < |pageIds| && pageIds[i] !in selected)
    ensures !(AllOnPageSelected(pageIds, selected) && SomeOnPageSelected(pageIds, selected))
  {
    CountAll(pageIds, id => id in selected);
    CountSome(pageIds, id => id in selected);
    assert SelectedOnPage(pageIds, selected) <= |pageIds|;
  }

  /** `toggleSelectAllOnPage`: the selection as a `Set` (duplicates dropped,
      order kept), then the page's ids deleted one by one when all were
      selected, or added one by one otherwise. */
  method ToggleSelectAllOnPage(prev: seq<string>, pageIds: seq<string>) returns (next: seq<string>)
    ensures pageIds == [] ==> next == prev
    ensures pageIds != [] && AllOnPageSelected(pageIds, prev) ==> next == RemoveAll(AddAll([], prev), pageIds)
    ensures pageIds != [] && !AllOnPageSelected(pageIds, prev) ==> next == AddAll(AddAll([], prev), pageIds)
  {
    if |pageIds| == 0 {
      return prev;
    }
    var prevSet := AddEach([], prev);
    if AllOnPageSelected(pageIds, prev) {
      next := DeleteEach(prevSet, pageIds);
    } else {
      next := AddEach(prevSet, pageIds);
    }
  }

  /** After the toggle, the page's ids are all selected or all unselected,
      ids off the page keep their state, and nothing is selected twice. */
  lemma ToggleSelectAllFacts(prev: seq<string>, pageIds: seq<string>, next: seq<string>)
    requires pageIds != []
    requires AllOnPageSelected(pageIds, prev) ==> next == RemoveAll(AddAll([], prev), pageIds)
    requires !AllOnPageSelected(pageIds, prev) ==> next == AddAll(AddAll([], prev), pageIds)
    ensures NoDup(next)
    ensures AllOnPageSelected(pageIds, prev) ==> forall id :: id in pageIds ==> id !in next
    ensures !AllOnPageSelected(pageIds, prev) ==> AllOnPageSelected(pageIds, next)
    ensures forall id :: id !in pageIds ==> (id in next <==> id in prev)
  {
    AddAllFacts([], prev);
    var set0 := AddAll([], prev);
    if AllOnPageSelected(pageIds, prev) {
      RemoveAllFacts(set0, pageIds);
    } else {
      AddAllFacts(set0, pageIds);
      PageFlags(pageIds, next);
    }
  }

  // ---------------------------------------------------------------------
  // Export file name
  // ---------------------------------------------------------------------

  /** `parseDownloadFileName`: the extended parameter (percent-decoded, or raw
      when decoding fails), then the plain one, then the fallback. The
      header is taken as it is: not trimmed, and nothing is replaced. */
  function ParseDownloadFileName(contentDisposition: string, fallback: string): (r: string)
    // the extended value wins: percent-decoded when it decodes
    ensures ReceiptPdf.ExtendedValue(contentDisposition).Some?
      && Uri.Decode(ReceiptPdf.ExtendedValue(contentDisposition).value).Some?
      ==> r == Uri.Decode(ReceiptPdf.ExtendedValue(contentDisposition).value).value
    // and taken as it is when decoding throws
    ensures ReceiptPdf.ExtendedValue(contentDisposition).Some?
      && Uri.Decode(ReceiptPdf.ExtendedValue(contentDisposition).value).None?
      ==> r == ReceiptPdf.ExtendedValue(contentDisposition).value
    // then the plain value, then the fallback
    ensures ReceiptPdf.ExtendedValue(contentDisposition).None? && ReceiptPdf.PlainValue(contentDisposition).None?
      ==> r == fallback
    ensures ReceiptPdf.ExtendedValue(contentDisposition).None? && ReceiptPdf.PlainValue(contentDisposition).Some?
      ==> r == ReceiptPdf.PlainValue(contentDisposition).value && r != []
  {
    match ReceiptPdf.ExtendedValue(contentDisposition)
    case Some(v) => Uri.Decode(v).GetOr(v)
    case None => ReceiptPdf.PlainValue(contentDisposition).GetOr(fallback)
  }

  /** An extended value that does not decode is used as it is. */
  lemma ParseRawOnFailure()
    ensures ParseDownloadFileName("filename*=UTF-8''50%", "export.zip") == "50%"
  {
    var h := "filename*=UTF-8''50%";
    assert ReceiptPdf.ExtMatchAt(h, 0);
    assert ReceiptPdf.FirstExtMatch(h, 0) == Some(0);
    RunStopsAt(h, |ReceiptPdf.ExtKey|, 3, c => c == ';');
    assert h[|ReceiptPdf.ExtKey|..|ReceiptPdf.ExtKey| + 3] == "50%";
    Uri.TrailingPercentFails("50");
    assert "50" + "%" == "50%";
  }

  /** On a header without surrounding white space, the receipt download's
      name is this name with forbidden characters replaced, the receipt's
      default standing in as the fallback. */
  lemma ReceiptNameIsSanitized(contentDisposition: string)
    requires contentDisposition != [] && Trim(contentDisposition) == contentDisposition
    ensures ReceiptPdf.FileNameFromContentDisposition(contentDisposition)
         == ReceiptPdf.Sanitize(ParseDownloadFileName(contentDisposition, ReceiptPdf.DefaultFileName))
  {
    ReceiptPdf.DefaultIsClean();
    ReceiptPdf.SanitizeClean(ReceiptPdf.DefaultFileName);
  }
}
