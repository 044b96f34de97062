/**
 * The admin battery-swaps screen: swaps grouped into one row per rider,
 * newest first, the date/search filter over those rows, the swap selection
 * and the list updates after a delete or an edit. The API calls are inputs:
 * whether the server accepted the request, and what it returned.
 */
module BatterySwaps {
  import opened Wrappers
  import opened Strings
  import opened Seqs
  import opened Tables
  import opened Sorting
  import opened Grouping

  /** A swap as loaded; missing text fields are `""`. */
  datatype Swap = Swap(
    id: string,
    riderMobile: string,
    riderId: string,
    riderFullName: string,
    vehicleNumber: string,
    batteryOut: string,
    batteryIn: string,
    notes: string,
    swappedAt: Stamp,
    createdAt: Stamp)

  /** One row per rider, from the rider's latest swap. */
  datatype RiderRow = RiderRow(
    key: string,
    count: nat,
    latest: Swap,
    riderFullName: string,
    riderMobile: string,
    vehicleNumber: string,
    batteryOut: string,
    batteryIn: string,
    swappedAt: Stamp)

  /** `String(row.rider_mobile || row.rider_id || "").trim()`. */
  function RiderKey(s: Swap): string {
    Trim(Or(s.riderMobile, s.riderId))
  }

  /** `row.swapped_at || row.created_at`. */
  function SwapTime(s: Swap): Stamp {
    if s.swappedAt.Missing? then s.createdAt else s.swappedAt
  }

  /** `Date.parse(row.swapped_at || row.created_at || "") || 0`. */
  function SwapTimeKey(s: Swap): int {
    TimeKey(SwapTime(s))
  }

  /** The row of a rider from their swaps: the latest one gives the fields. */
  function Summary(key: string, list: seq<Swap>): RiderRow
    requires list != []
  {
    var sorted := SortDescBy(list, SwapTimeKey);
    var latest := sorted[0];
    RiderRow(key, |sorted|, latest, Or(latest.riderFullName, "-"), Or(latest.riderMobile, key),
             Or(latest.vehicleNumber, "-"), Or(latest.batteryOut, "-"), Or(latest.batteryIn, "-"), SwapTime(latest))
  }

  /** The latest swap gives the row its fields, the list its count. */
  lemma SummaryFacts(key: string, list: seq<Swap>)
    requires list != []
    ensures Summary(key, list).key == key && Summary(key, list).count == |list|
    ensures Summary(key, list).latest in list
    ensures forall s :: s in list ==> SwapTimeKey(s) <= SwapTimeKey(Summary(key, list).latest)
  {
    var sorted := SortDescBy(list, SwapTimeKey);
    assert sorted[0] in multiset(list);
    forall s | s in list ensures SwapTimeKey(s) <= SwapTimeKey(sorted[0]) {
      HeadIsGreatest(list, SwapTimeKey, s);
    }
  }

  /** The rows of the listed keys, in key order. */
  function Summaries(keys: seq<string>, groups: map<string, seq<Swap>>): (r: seq<RiderRow>)
    requires forall k :: k in keys ==> k in groups && groups[k] != []
    ensures |r| == |keys|
    ensures forall i :: 0 <= i < |keys| ==> r[i] == Summary(keys[i], groups[keys[i]])
  {
    seq(|keys|, i requires 0 <= i < |keys| => Summary(keys[i], groups[keys[i]]))
  }

  function RowCount(r: RiderRow): int {
    r.count
  }

  /** The time a rider row is sorted by. */
  function RowTimeKey(r: RiderRow): int {
    TimeKey(r.swappedAt)
  }

  /** `riderRows`. */
  function RiderRows(swaps: seq<Swap>): seq<RiderRow> {
    GroupsNonEmpty(swaps, RiderKey);
    SortDescBy(Summaries(KeysInOrder(swaps, RiderKey), GroupMap(swaps, RiderKey)), RowTimeKey)
  }

  /** `riderRows` as the screen computes it: the map filled in a `forEach`,
      one row built per key in insertion order, then the rows sorted. */
  method BuildRiderRows(swaps: seq<Swap>) returns (rows: seq<RiderRow>)
    ensures rows == RiderRows(swaps)
  {
    var keys, groups := GroupBy(swaps, RiderKey);
    GroupsNonEmpty(swaps, RiderKey);
    var built := SummarizeAll(keys, groups);
    rows := SortDescBy(built, RowTimeKey);
  }

  /** The loop over the map's entries that builds one row per key. */
  method SummarizeAll(keys: seq<string>, groups: map<string, seq<Swap>>) returns (built: seq<RiderRow>)
    requires forall k :: k in keys ==> k in groups && groups[k] != []
    ensures built == Summaries(keys, groups)
  {
    built := [];
    for i := 0 to |keys|
      invariant |built| == i
      invariant forall j :: 0 <= j < i ==> built[j] == Summary(keys[j], groups[keys[j]])
    {
      built := built + [Summary(keys[i], groups[keys[i]])];
    }
  }

  /** The counts of the listed keys' rows are their group sizes. */
  lemma {:induction false} SummariesCount(keys: seq<string>, swaps: seq<Swap>)
    requires forall k :: k in keys ==> k in KeysInOrder(swaps, RiderKey)
    requires forall k :: k in keys ==> k in GroupMap(swaps, RiderKey) && GroupMap(swaps, RiderKey)[k] != []
    ensures SumBy(Summaries(keys, GroupMap(swaps, RiderKey)), RowCount) == SumBy(keys, k => |Members(swaps, RiderKey, k)|)
  {
    if keys != [] {
      var groups := GroupMap(swaps, RiderKey);
      SummariesCount(keys[1..], swaps);
      assert Summaries(keys, groups)[1..] == Summaries(keys[1..], groups);
      SummaryFacts(keys[0], groups[keys[0]]);
    }
  }

  /** The rows are ordered newest first. */
  lemma RiderRowsSorted(swaps: seq<Swap>)
    ensures SortedDescBy(RiderRows(swaps), RowTimeKey)
    ensures |RiderRows(swaps)| == |KeysInOrder(swaps, RiderKey)|
  {
  }

  /** Each row is the summary of one listed key. */
  lemma RowOfKey(swaps: seq<Swap>, r: RiderRow) returns (k: string)
    requires r in RiderRows(swaps)
    ensures k in KeysInOrder(swaps, RiderKey) && k in GroupMap(swaps, RiderKey)
    ensures GroupMap(swaps, RiderKey)[k] != [] && r == Summary(k, GroupMap(swaps, RiderKey)[k])
  {
    GroupsNonEmpty(swaps, RiderKey);
    var keys := KeysInOrder(swaps, RiderKey);
    var built := Summaries(keys, GroupMap(swaps, RiderKey));
    assert r in multiset(RiderRows(swaps));
    assert r in multiset(built);
    var i :| 0 <= i < |built| && built[i] == r;
    k := keys[i];
  }

  /** Each row's key is a non-blank rider key; its count is the number of
      swaps with that key and its fields come from the latest of them. */
  lemma RiderRowsMembers(swaps: seq<Swap>, r: RiderRow)
    requires r in RiderRows(swaps)
    ensures r.key != "" && r.count == |Members(swaps, RiderKey, r.key)| && r.count > 0
    ensures r.latest in swaps && RiderKey(r.latest) == r.key
    ensures forall s :: s in swaps && RiderKey(s) == r.key ==> SwapTimeKey(s) <= SwapTimeKey(r.latest)
  {
    var k := RowOfKey(swaps, r);
    var list := GroupMap(swaps, RiderKey)[k];
    assert list == Members(swaps, RiderKey, k);
    KeysNonBlank(swaps, RiderKey);
    SummaryFacts(k, list);
    forall s ensures s in list <==> s in swaps && RiderKey(s) == k {
      MemberIff(swaps, RiderKey, k, s);
    }
  }

  /** Every rider with a key has a row. */
  lemma RiderRowsCover(swaps: seq<Swap>, s: Swap)
    requires s in swaps && RiderKey(s) != ""
    ensures exists r :: r in RiderRows(swaps) && r.key == RiderKey(s)
  {
    GroupsNonEmpty(swaps, RiderKey);
    var keys := KeysInOrder(swaps, RiderKey);
    var groups := GroupMap(swaps, RiderKey);
    var built := Summaries(keys, groups);
    KeysInOrderFacts(swaps, RiderKey);
    var j :| 0 <= j < |swaps| && swaps[j] == s;
    assert RiderKey(s) in keys;
    var i :| 0 <= i < |keys| && keys[i] == RiderKey(s);
    SummaryFacts(keys[i], groups[keys[i]]);
    assert built[i] in multiset(built);
    assert built[i] in multiset(RiderRows(swaps));
  }

  /** Every keyed swap is counted in exactly one row: the counts add up to
      the number of swaps that have a key. */
  lemma RiderRowsCount(swaps: seq<Swap>)
    ensures SumBy(RiderRows(swaps), RowCount) == |Keyed(swaps, RiderKey)|
  {
    GroupsNonEmpty(swaps, RiderKey);
    var keys := KeysInOrder(swaps, RiderKey);
    var built := Summaries(keys, GroupMap(swaps, RiderKey));
    SumByPermutation(RiderRows(swaps), built, RowCount);
    SummariesCount(keys, swaps);
    GroupSizesSum(swaps, RiderKey);
  }

  // ---------------------------------------------------------------------
  // Employee names
  // ---------------------------------------------------------------------

  /** A user of the sign-in service as listed; missing fields are `""`. */
  datatype AuthUser = AuthUser(uid: string, email: string, displayName: string)

  /** One page of the user listing, and whether it names a next page. */
  datatype AuthPage = AuthPage(users: seq<AuthUser>, hasNext: bool)

  /** The listing is fetched at most 50 times. */
  const MaxListCalls: nat := 50

  /** What a user is filed by: its trimmed display name, trimmed uid and
      trimmed, lower-cased email. */
  datatype Entry = Entry(name: string, uid: string, email: string)

  function EntryOf(u: AuthUser): Entry {
    Entry(Trim(u.displayName), Trim(u.uid), Lower(Trim(u.email)))
  }

  /** The keys an entry is filed under: its uid and its email, when not
      blank. An entry without a name files none. */
  function EntryKeys(e: Entry): set<string> {
    if e.name == "" then {}
    else (if e.uid != "" then {e.uid} else {}) + (if e.email != "" then {e.email} else {})
  }

  /** One step of the `forEach` over a page's users. */
  function File(m: map<string, string>, e: Entry): map<string, string> {
    if e.name == "" then m
    else
      var m1 := if e.uid != "" then m[e.uid := e.name] else m;
      if e.email != "" then m1[e.email := e.name] else m1
  }

  /** A page's users added in order, each filed by `entry`. */
  function AddUsers(m: map<string, string>, users: seq<AuthUser>, entry: AuthUser -> Entry): map<string, string> {
    if users == [] then m else File(AddUsers(m, users[..|users| - 1], entry), entry(users[|users| - 1]))
  }

  /** The names filed after the first `n` calls of the listing, each user
      filed by `entry`. */
  function NamesWith(fetch: nat -> AuthPage, n: nat, entry: AuthUser -> Entry): map<string, string> {
    if n == 0 then map[] else AddUsers(NamesWith(fetch, n - 1, entry), fetch(n - 1).users, entry)
  }

  /** The names `loadUsers` files after the first `n` calls. */
  function NamesAfter(fetch: nat -> AuthPage, n: nat): map<string, string> {
    NamesWith(fetch, n, EntryOf)
  }

  /** The pages the listing answered, reading a failed call as an empty
      last page; only the calls before a failure are ever read through it. */
  function Answered(reply: nat -> Outcome<AuthPage>): nat -> AuthPage {
    (n: nat) => if reply(n).Done? then reply(n).value else AuthPage([], false)
  }

  /** `loadUsers`: the listing is fetched page after page, every named user
      filed under its uid and its email, until a page names no next page or
      the 50th call. `reply(i)` is the reply to the call numbered `i`. A call
      that fails ends the load inside its `try`, before `setEmployeeNameMap`:
      the result is then `None` and the screen keeps the map it had. */
  method LoadEmployeeNames(reply: nat -> Outcome<AuthPage>) returns (names: Option<map<string, string>>, calls: nat)
    ensures 1 <= calls <= MaxListCalls
    ensures forall i :: 0 <= i < calls - 1 ==> reply(i).Done? && reply(i).value.hasNext
    ensures reply(calls - 1).Failed? ==> names.None?
    ensures reply(calls - 1).Done? ==>
      names == Some(NamesAfter(Answered(reply), calls)) && (!reply(calls - 1).value.hasNext || calls == MaxListCalls)
  {
    var next := map[];
    var safety := 0;
    while safety < MaxListCalls
      invariant 0 <= safety <= MaxListCalls
      invariant next == NamesAfter(Answered(reply), safety)
      invariant forall i :: 0 <= i < safety ==> reply(i).Done? && reply(i).value.hasNext
      decreases MaxListCalls - safety
    {
      var r := reply(safety);
      safety := safety + 1;
      match r
      case Failed(_) =>
        return None, safety;
      case Done(data) =>
        next := AddPage(next, data.users);
        if !data.hasNext {
          return Some(next), safety;
        }
    }
    names, calls := Some(next), safety;
  }

  lemma AddUsersSnoc(m: map<string, string>, users: seq<AuthUser>, entry: AuthUser -> Entry, j: nat)
    requires j < |users|
    ensures AddUsers(m, users[..j + 1], entry) == File(AddUsers(m, users[..j], entry), entry(users[j]))
  {
    assert users[..j + 1][..j] == users[..j];
  }

  /** The `forEach` over one page's users. */
  method AddPage(m: map<string, string>, users: seq<AuthUser>) returns (r: map<string, string>)
    ensures r == AddUsers(m, users, EntryOf)
  {
    r := m;
    for j := 0 to |users|
      invariant r == AddUsers(m, users[..j], EntryOf)
    {
      AddUsersSnoc(m, users, EntryOf, j);
      r := File(r, EntryOf(users[j]));
    }
    assert users[..|users|] == users;
  }

  /** One user files exactly its keys, under its name, and leaves every
      other key as it was. */
  lemma FileFacts(m: map<string, string>, e: Entry)
    ensures forall k :: k in File(m, e) <==> k in m || k in EntryKeys(e)
    ensures forall k :: k in EntryKeys(e) ==> File(m, e)[k] == e.name
    ensures forall k :: k in m && k !in EntryKeys(e) ==> File(m, e)[k] == m[k]
  {
  }

  /** Some user of the list files key `k`. */
  predicate Files(users: seq<AuthUser>, entry: AuthUser -> Entry, k: string) {
    exists j :: 0 <= j < |users| && k in EntryKeys(entry(users[j]))
  }

  /** Some user of the first `n` pages files key `k`. */
  predicate Filed(fetch: nat -> AuthPage, n: nat, entry: AuthUser -> Entry, k: string) {
    exists i :: 0 <= i < n && Files(fetch(i).users, entry, k)
  }

  /** A key is filed after some users exactly when it was filed before or
      one of the users files it, and it is filed under a non-blank name. */
  lemma {:induction false} AddUsersKey(m: map<string, string>, users: seq<AuthUser>, entry: AuthUser -> Entry, k: string)
    requires forall k' :: k' in m ==> m[k'] != ""
    ensures k in AddUsers(m, users, entry) <==> k in m || Files(users, entry, k)
    ensures k in AddUsers(m, users, entry) ==> AddUsers(m, users, entry)[k] != ""
  {
    if users != [] {
      var p := users[..|users| - 1];
      var u := users[|users| - 1];
      AddUsersKey(m, p, entry, k);
      FileFacts(AddUsers(m, p, entry), entry(u));
      if Files(p, entry, k) {
        var j :| 0 <= j < |p| && k in EntryKeys(entry(p[j]));
        assert users[j] == p[j];
      }
      if Files(users, entry, k) {
        var j :| 0 <= j < |users| && k in EntryKeys(entry(users[j]));
        if j < |p| {
          assert users[j] == p[j];
        }
      }
    }
  }

  /** After `n` calls, a key is filed exactly when some named user of a
      fetched page carries it, and it is filed under a non-blank name. */
  lemma {:induction false} NamesWithKey(fetch: nat -> AuthPage, n: nat, entry: AuthUser -> Entry, k: string)
    ensures k in NamesWith(fetch, n, entry) <==> Filed(fetch, n, entry, k)
    ensures k in NamesWith(fetch, n, entry) ==> NamesWith(fetch, n, entry)[k] != ""
  {
    if n > 0 {
      var prev := NamesWith(fetch, n - 1, entry);
      forall k' | k' in prev ensures prev[k'] != "" {
        NamesWithKey(fetch, n - 1, entry, k');
      }
      NamesWithKey(fetch, n - 1, entry, k);
      AddUsersKey(prev, fetch(n - 1).users, entry, k);
      if Filed(fetch, n, entry, k) && !Files(fetch(n - 1).users, entry, k) {
        var i :| 0 <= i < n && Files(fetch(i).users, entry, k);
        assert i < n - 1;
      }
    }
  }

  /** The map `loadUsers` builds: a key is present exactly when a named
      user of a fetched page files it, and its name is never blank. */
  lemma NamesAfterFacts(fetch: nat -> AuthPage, n: nat)
    ensures forall k :: k in NamesAfter(fetch, n) <==> Filed(fetch, n, EntryOf, k)
    ensures forall k :: k in NamesAfter(fetch, n) ==> NamesAfter(fetch, n)[k] != ""
  {
    forall k ensures k in NamesAfter(fetch, n) <==> Filed(fetch, n, EntryOf, k) {
      NamesWithKey(fetch, n, EntryOf, k);
    }
    forall k | k in NamesAfter(fetch, n) ensures NamesAfter(fetch, n)[k] != "" {
      NamesWithKey(fetch, n, EntryOf, k);
    }
  }

  // ---------------------------------------------------------------------
  // Filtering
  // ---------------------------------------------------------------------

  /** The lower-cased fields a search looks at, joined by `" | "`. */
  function Haystack(r: RiderRow): string {
    Join([Lower(r.riderFullName), Lower(r.riderMobile), Lower(r.vehicleNumber), Lower(r.batteryOut),
          Lower(r.batteryIn)], " | ")
  }

  predicate RowMatches(r: RiderRow, search: string, from: DayBound, to: DayBound) {
    var q := Lower(Trim(search));
    IsWithinDateRange(r.swappedAt, from, to) && (q == "" || Contains(Haystack(r), q))
  }

  /** `filteredRiderRows`. */
  function FilteredRiderRows(rows: seq<RiderRow>, search: string, from: DayBound, to: DayBound): seq<RiderRow> {
    Filter(rows, r => RowMatches(r, search, from, to))
  }

  /** The filter keeps exactly the rows in range whose fields hold the
      query, in their order; a blank query keeps every row in range. */
  lemma FilteredRiderRowsFacts(rows: seq<RiderRow>, search: string, from: DayBound, to: DayBound)
    ensures forall r :: r in FilteredRiderRows(rows, search, from, to) <==>
      r in rows && IsWithinDateRange(r.swappedAt, from, to)
      && (Lower(Trim(search)) == "" || Contains(Haystack(r), Lower(Trim(search))))
    ensures IsSubsequence(FilteredRiderRows(rows, search, from, to), rows)
    ensures SortedDescBy(rows, RowTimeKey) ==> SortedDescBy(FilteredRiderRows(rows, search, from, to), RowTimeKey)
  {
    FilterIsSubsequence(rows, r => RowMatches(r, search, from, to));
    if SortedDescBy(rows, RowTimeKey) {
      SubsequenceSorted(FilteredRiderRows(rows, search, from, to), rows);
    }
  }

  /** A subsequence of a sorted list is sorted. */
  lemma {:induction false} SubsequenceSorted(a: seq<RiderRow>, b: seq<RiderRow>)
    requires IsSubsequence(a, b) && SortedDescBy(b, RowTimeKey)
    ensures SortedDescBy(a, RowTimeKey)
    decreases |b|
  {
    if b != [] {
      assert SortedDescBy(b[1..], RowTimeKey);
      if a != [] && a[0] == b[0] && IsSubsequence(a[1..], b[1..]) {
        SubsequenceSorted(a[1..], b[1..]);
        forall j | 0 < j < |a| ensures RowTimeKey(a[0]) >= RowTimeKey(a[j]) {
          SubsequenceMember(a[1..], b[1..], a[j]);
          assert a[j] == a[1..][j - 1];
        }
      } else {
        SubsequenceSorted(a, b[1..]);
      }
    }
  }

  // ---------------------------------------------------------------------
  // Selection and list updates
  // ---------------------------------------------------------------------

  /** `String(row.id)` of every loaded swap. */
  function Ids(swaps: seq<Swap>): seq<string> {
    if swaps == [] then [] else [swaps[0].id] + Ids(swaps[1..])
  }

  lemma {:induction false} IdsMember(swaps: seq<Swap>, id: string)
    ensures id in Ids(swaps) <==> exists s :: s in swaps && s.id == id
  {
    if swaps != [] {
      IdsMember(swaps[1..], id);
      assert forall s :: s in swaps <==> s == swaps[0] || s in swaps[1..];
    }
  }

  /** The selection after a reload: the ids still loaded, in order. */
  function Pruned(selected: seq<string>, swaps: seq<Swap>): seq<string> {
    Filter(selected, id => id in Ids(swaps))
  }

  /** Pruning keeps exactly the selected ids that are still loaded. */
  lemma PrunedFacts(selected: seq<string>, swaps: seq<Swap>)
    ensures forall id :: id in Pruned(selected, swaps) <==> id in selected && exists s :: s in swaps && s.id == id
    ensures IsSubsequence(Pruned(selected, swaps), selected)
  {
    FilterIsSubsequence(selected, id => id in Ids(swaps));
    forall id ensures id in Ids(swaps) <==> exists s :: s in swaps && s.id == id {
      IdsMember(swaps, id);
    }
  }

  /** The swaps left after deleting the selected ones. */
  function WithoutSelected(swaps: seq<Swap>, selected: seq<string>): seq<Swap> {
    Filter(swaps, (r: Swap) => r.id !in selected)
  }

  /** A bulk delete removes exactly the selected swaps and keeps the order of
      the others. */
  lemma WithoutSelectedFacts(swaps: seq<Swap>, selected: seq<string>)
    ensures forall r :: r in WithoutSelected(swaps, selected) <==> r in swaps && r.id !in selected
    ensures IsSubsequence(WithoutSelected(swaps, selected), swaps)
  {
    FilterIsSubsequence(swaps, (r: Swap) => r.id !in selected);
  }

  /** The swaps left after deleting one. */
  function WithoutSwap(swaps: seq<Swap>, id: string): seq<Swap> {
    Filter(swaps, (r: Swap) => r.id != id)
  }

  /** A single delete removes exactly the swaps with that id. */
  lemma WithoutSwapFacts(swaps: seq<Swap>, id: string)
    ensures forall r :: r in WithoutSwap(swaps, id) <==> r in swaps && r.id != id
    ensures IsSubsequence(WithoutSwap(swaps, id), swaps)
  {
    FilterIsSubsequence(swaps, (r: Swap) => r.id != id);
  }

  /** The selection after unselecting the visible ids. */
  function Unselected(selected: seq<string>, visible: seq<string>): seq<string> {
    Filter(selected, id => id !in visible)
  }

  /** The record the server returns after an edit, field by field; `None`
      is a field it did not return. Any field may come back, the id
      included. */
  datatype SwapPatch = SwapPatch(
    id: Option<string>,
    riderMobile: Option<string>,
    riderId: Option<string>,
    riderFullName: Option<string>,
    vehicleNumber: Option<string>,
    batteryOut: Option<string>,
    batteryIn: Option<string>,
    notes: Option<string>,
    swappedAt: Option<Stamp>,
    createdAt: Option<Stamp>)

  /** `{ ...row, ...updated }`: every returned field overwrites the row's. */
  function Merge(r: Swap, p: SwapPatch): Swap {
    Swap(p.id.GetOr(r.id), p.riderMobile.GetOr(r.riderMobile), p.riderId.GetOr(r.riderId),
         p.riderFullName.GetOr(r.riderFullName), p.vehicleNumber.GetOr(r.vehicleNumber),
         p.batteryOut.GetOr(r.batteryOut), p.batteryIn.GetOr(r.batteryIn), p.notes.GetOr(r.notes),
         p.swappedAt.GetOr(r.swappedAt), p.createdAt.GetOr(r.createdAt))
  }

  /** A reply without fields leaves the row as it was. */
  lemma MergeNothing(r: Swap)
    ensures Merge(r, SwapPatch(None, None, None, None, None, None, None, None, None, None)) == r
  {
  }

  /** The list after a save: the row with the id takes the returned fields. */
  function Saved(swaps: seq<Swap>, id: string, p: SwapPatch): (r: seq<Swap>)
    ensures |r| == |swaps|
  {
    if swaps == [] then []
    else [if swaps[0].id == id then Merge(swaps[0], p) else swaps[0]] + Saved(swaps[1..], id, p)
  }

  /** A save changes only the rows with the saved id, and keeps every id
      unless the reply carries a different one, which the saved rows then
      take. */
  lemma {:induction false} SavedFacts(swaps: seq<Swap>, id: string, p: SwapPatch)
    ensures forall i :: 0 <= i < |swaps| && swaps[i].id != id ==> Saved(swaps, id, p)[i] == swaps[i]
    ensures forall i :: 0 <= i < |swaps| && swaps[i].id == id ==> Saved(swaps, id, p)[i] == Merge(swaps[i], p)
    ensures p.id.None? || p.id == Some(id) ==> Ids(Saved(swaps, id, p)) == Ids(swaps)
    ensures forall i :: 0 <= i < |swaps| && swaps[i].id == id ==> Saved(swaps, id, p)[i].id == p.id.GetOr(id)
  {
    if swaps != [] {
      var s := Saved(swaps, id, p);
      var t := Saved(swaps[1..], id, p);
      SavedFacts(swaps[1..], id, p);
      assert s[1..] == t;
      assert p.id.None? || p.id == Some(id) ==> s[0].id == swaps[0].id;
      forall i | 1 <= i < |swaps| ensures s[i] == t[i - 1] && swaps[i] == swaps[1..][i - 1] {
      }
    }
  }

  /** The screen's state: the loaded swaps, the selection, the row being
      edited (`""` for none), the error banner and the reload counter. */
  class SwapsScreen {
    var swaps: seq<Swap>
    var selected: seq<string>
    var editingId: string
    var error: string
    var refresh: nat

    constructor()
      ensures swaps == [] && selected == [] && editingId == "" && error == "" && refresh == 0
    {
      swaps := [];
      selected := [];
      editingId := "";
      error := "";
      refresh := 0;
    }

    /** A load followed by the selection-pruning effect. `load` clears the
        error first, and since each of its four calls falls back to `[]` on
        failure its own `catch` is never reached: a reload always ends with
        no error. */
    method Reload(loaded: seq<Swap>)
      modifies this
      ensures swaps == loaded && selected == Pruned(old(selected), loaded)
      ensures editingId == old(editingId) && error == "" && refresh == old(refresh)
    {
      error := "";
      swaps := loaded;
      selected := Pruned(selected, loaded);
    }

    /** `toggleSwapSelection`. */
    method ToggleSwapSelection(id: string)
      modifies this
      ensures selected == Toggle(old(selected), id)
      ensures id in selected <==> id !in old(selected)
      ensures forall x :: x != id ==> (x in selected <==> x in old(selected))
      ensures swaps == old(swaps) && editingId == old(editingId) && error == old(error) && refresh == old(refresh)
    {
      ToggleMembership(selected, id);
      selected := Toggle(selected, id);
    }

    /** `toggleSelectVisible`: every loaded swap is visible. */
    method ToggleSelectVisible()
      modifies this
      ensures var visible := Ids(old(swaps));
        if |visible| > 0 && forall i :: 0 <= i < |visible| ==> visible[i] in old(selected)
        then selected == Unselected(old(selected), visible)
        else selected == AddAll(AddAll([], old(selected)), visible)
      ensures swaps == old(swaps) && editingId == old(editingId) && error == old(error) && refresh == old(refresh)
    {
      var visible := Ids(swaps);
      var allSelected := |visible| > 0 && forall i :: 0 <= i < |visible| ==> visible[i] in selected;
      if allSelected {
        selected := Unselected(selected, visible);
      } else {
        var next := AddEach([], selected);
        selected := AddEach(next, visible);
      }
    }

    /** `bulkDeleteSelected`: nothing without a selection or a confirmation;
        on success the selected rows go and the selection is cleared. */
    method BulkDeleteSelected(confirmed: bool, outcome: Outcome<()>)
      modifies this
      ensures old(selected) == [] || !confirmed ==>
        swaps == old(swaps) && selected == old(selected) && error == old(error) && refresh == old(refresh)
      ensures old(selected) != [] && confirmed && outcome.Done? ==>
        swaps == WithoutSelected(old(swaps), old(selected)) && selected == [] && refresh == old(refresh) + 1
        && error == old(error)
      ensures old(selected) != [] && confirmed && outcome.Failed? ==>
        swaps == old(swaps) && selected == old(selected) && refresh == old(refresh)
        && error == ErrorText(outcome.message, "Unable to delete selected swaps")
      ensures editingId == old(editingId)
    {
      if |selected| == 0 || !confirmed {
        return;
      }
      match outcome {
        case Done(_) =>
          swaps := WithoutSelected(swaps, selected);
          selected := [];
          refresh := refresh + 1;
        case Failed(message) =>
          error := ErrorText(message, "Unable to delete selected swaps");
      }
    }

    /** `deleteSwap`: the row and its id go, and an edit of that row ends. */
    method DeleteSwap(id: string, confirmed: bool, outcome: Outcome<()>)
      modifies this
      ensures id == "" || !confirmed ==>
        swaps == old(swaps) && selected == old(selected) && editingId == old(editingId)
        && error == old(error) && refresh == old(refresh)
      ensures id != "" && confirmed && outcome.Done? ==>
        swaps == WithoutSwap(old(swaps), id) && selected == Without(old(selected), id)
        && editingId == (if old(editingId) == id then "" else old(editingId))
        && refresh == old(refresh) + 1 && error == old(error)
      ensures id != "" && confirmed && outcome.Failed? ==>
        swaps == old(swaps) && selected == old(selected) && editingId == old(editingId) && refresh == old(refresh)
        && error == ErrorText(outcome.message, "Unable to delete swap")
    {
      if id == "" || !confirmed {
        return;
      }
      match outcome {
        case Done(_) =>
          swaps := WithoutSwap(swaps, id);
          selected := Without(selected, id);
          if editingId == id {
            editingId := "";
          }
          refresh := refresh + 1;
        case Failed(message) =>
          error := ErrorText(message, "Unable to delete swap");
      }
    }

    /** `saveSwap`: without an id or an open draft (`hasDraft`) nothing is
        sent and nothing changes; otherwise the returned fields are merged
        into the row with the id and the edit ends. */
    method SaveSwap(id: string, hasDraft: bool, outcome: Outcome<SwapPatch>)
      modifies this
      ensures id == "" || !hasDraft ==>
        swaps == old(swaps) && editingId == old(editingId) && refresh == old(refresh) && error == old(error)
      ensures id != "" && hasDraft && outcome.Done? ==>
        swaps == Saved(old(swaps), id, outcome.value) && editingId == "" && refresh == old(refresh) + 1
        && error == old(error)
      ensures id != "" && hasDraft && outcome.Failed? ==>
        swaps == old(swaps) && editingId == old(editingId) && refresh == old(refresh)
        && error == ErrorText(outcome.message, "Unable to update swap")
      ensures selected == old(selected)
    {
      if id == "" || !hasDraft {
        return;
      }
      match outcome {
        case Done(patch) =>
          swaps := Saved(swaps, id, patch);
          editingId := "";
          refresh := refresh + 1;
        case Failed(message) =>
          error := ErrorText(message, "Unable to update swap");
      }
    }
  }
}
