/**
 * The admin rentals table: the zone name cleaned out of free text, the
 * display row of each rental, the ride numbers, the per-rider groups with
 * their primary ride, the group filter, the summary cards and the expanded
 * riders.
 */
module RentalsTable {
  import opened Wrappers
  import opened Strings
  import opened Seqs
  import opened Tables
  import opened Sorting
  import opened Grouping
  import RideLabels

  // ---------------------------------------------------------------------
  // Zones
  // ---------------------------------------------------------------------

  /** `\bzone\b` matches at `i`: the four letters, with no word character
      just before or just after them. */
  predicate ZoneWordAt(s: string, i: nat) {
    i + 4 <= |s| && s[i..i + 4] == "zone"
    && (i == 0 || !IsWordChar(s[i - 1]))
    && (i + 4 == |s| || !IsWordChar(s[i + 4]))
  }

  /** `s.replace(/\bzone\b/g, "")` from position `i` on: each match is cut
      out and the scan resumes after it. */
  function StripZoneWord(s: string, i: nat): (r: string)
    requires i <= |s|
    ensures |r| <= |s| - i
    decreases |s| - i
  {
    if i == |s| then ""
    else if ZoneWordAt(s, i) then StripZoneWord(s, i + 4)
    else [s[i]] + StripZoneWord(s, i + 1)
  }

  /** Text without the word is left as it is. */
  lemma {:induction false} StripWithoutWord(s: string, i: nat)
    requires i <= |s|
    requires forall j :: i <= j < |s| ==> !ZoneWordAt(s, j)
    ensures StripZoneWord(s, i) == s[i..]
    decreases |s| - i
  {
    if i < |s| {
      StripWithoutWord(s, i + 1);
      assert s[i..] == [s[i]] + s[i + 1..];
    }
  }

  /** Stripping only removes characters: what is left keeps its order. */
  lemma {:induction false} StripIsSubsequence(s: string, i: nat)
    requires i <= |s|
    ensures IsSubsequence(StripZoneWord(s, i), s[i..])
    decreases |s| - i
  {
    if i < |s| {
      var r := StripZoneWord(s, i);
      assert s[i..][0] == s[i] && s[i..][1..] == s[i + 1..];
      if ZoneWordAt(s, i) {
        StripIsSubsequence(s, i + 4);
        SubsequenceDrop(r, s[i..], 4);
        assert s[i..][4..] == s[i + 4..];
      } else {
        StripIsSubsequence(s, i + 1);
        assert r[0] == s[i] && r[1..] == StripZoneWord(s, i + 1);
      }
    }
  }

  /** A subsequence of a tail is a subsequence of the whole. */
  lemma {:induction false} SubsequenceDrop(a: string, b: string, n: nat)
    requires n <= |b| && IsSubsequence(a, b[n..])
    ensures IsSubsequence(a, b)
    decreases n
  {
    if n > 0 {
      assert b[1..][n - 1..] == b[n..];
      SubsequenceDrop(a, b[1..], n - 1);
    }
  }

  /** `s.replace(/\s+/g, " ")`: every run of white space becomes one blank. */
  function CollapseSpaces(s: string): (r: string)
    ensures s == [] <==> r == []
    ensures s != [] && IsSpace(s[0]) ==> r[0] == ' '
    ensures s != [] && !IsSpace(s[0]) ==> r[0] == s[0]
    decreases |s|
  {
    if s == [] then ""
    else if IsSpace(s[0]) then
      TrimStartFacts(s[1..]);
      " " + CollapseSpaces(TrimStart(s[1..]))
    else [s[0]] + CollapseSpaces(s[1..])
  }

  /** The only white space is single blanks. */
  predicate Collapsed(s: string) {
    && (forall i :: 0 <= i < |s| && IsSpace(s[i]) ==> s[i] == ' ')
    && (forall i :: 0 <= i < |s| - 1 ==> !(IsSpace(s[i]) && IsSpace(s[i + 1])))
  }

  lemma {:induction false} CollapseSpacesCollapsed(s: string)
    ensures Collapsed(CollapseSpaces(s))
    decreases |s|
  {
    if s != [] {
      var r := CollapseSpaces(s);
      if IsSpace(s[0]) {
        var t := TrimStart(s[1..]);
        TrimStartFacts(s[1..]);
        CollapseSpacesCollapsed(t);
        assert r[1..] == CollapseSpaces(t);
      } else {
        CollapseSpacesCollapsed(s[1..]);
        assert r[1..] == CollapseSpaces(s[1..]);
      }
    }
  }

  /** Text that is already collapsed is left as it is, so collapsing twice
      is collapsing once. */
  lemma {:induction false} CollapseSpacesFixed(s: string)
    requires Collapsed(s)
    ensures CollapseSpaces(s) == s
    decreases |s|
  {
    if s != [] {
      assert Collapsed(s[1..]) by {
        forall i | 0 <= i < |s[1..]| - 1 ensures !(IsSpace(s[1..][i]) && IsSpace(s[1..][i + 1])) {
          assert s[1..][i] == s[i + 1] && s[1..][i + 1] == s[i + 2];
        }
      }
      CollapseSpacesFixed(s[1..]);
      if IsSpace(s[0]) {
        assert s[1..] == [] || !IsSpace(s[1..][0]);
        assert TrimStart(s[1..]) == s[1..];
      }
      assert s == [s[0]] + s[1..];
    }
  }

  lemma CollapseSpacesIdempotent(s: string)
    ensures CollapseSpaces(CollapseSpaces(s)) == CollapseSpaces(s)
  {
    CollapseSpacesCollapsed(s);
    CollapseSpacesFixed(CollapseSpaces(s));
  }

  /** A slice of collapsed text is collapsed. */
  lemma CollapsedSlice(s: string, i: nat, j: nat)
    requires Collapsed(s) && i <= j <= |s|
    ensures Collapsed(s[i..j])
  {
    forall k | 0 <= k < j - i - 1 ensures !(IsSpace(s[i..j][k]) && IsSpace(s[i..j][k + 1])) {
      assert s[i..j][k] == s[i + k] && s[i..j][k + 1] == s[i + k + 1];
    }
  }

  /** The lower-cased, trimmed input with the word "zone" cut out, white
      space collapsed and the ends trimmed. */
  function Cleaned(raw: string): string {
    Trim(CollapseSpaces(StripZoneWord(raw, 0)))
  }

  /** The cleaned text has no white space at its ends and only single blanks inside. */
  lemma CleanedFacts(raw: string)
    ensures Collapsed(Cleaned(raw))
    ensures Cleaned(raw) == [] || (!IsSpace(Cleaned(raw)[0]) && !IsSpace(Cleaned(raw)[|Cleaned(raw)| - 1]))
  {
    var c := CollapseSpaces(StripZoneWord(raw, 0));
    CollapseSpacesCollapsed(StripZoneWord(raw, 0));
    var i, j := TrimSlice(c);
    CollapsedSlice(c, i, j);
  }

  /** The chain of `includes` tests, in source order; `has(p)` is
      `cleaned.includes(p)`. */
  function ZoneBy(has: string -> bool): string {
    if has("gotri") then "Gotri"
    else if has("manjalpur") then "Manjalpur"
    else if has("karelibaug") then "Karelibaug"
    else if has("daman") then "Daman"
    else if has("aatapi") || has("atapi") then "Aatapi"
    else if has("waghodiya") then "Waghodiya"
    else if has("ajwa") then "Ajwa Road"
    else if has("chhani") then "Chhani"
    else if has("anand") then "Anand"
    else ""
  }

  /** The fragment test on the cleaned text `c`: `c.includes(p)`. */
  function Fragments(c: string): string -> bool {
    p => Contains(c, p)
  }

  /** `normalizeZone`. */
  function NormalizeZone(value: string): string {
    var raw := Lower(Trim(value));
    if raw == "" then "" else ZoneBy(Fragments(Cleaned(raw)))
  }

  /** A zone and the fragments that name it. */
  datatype ZoneRule = ZoneRule(patterns: seq<string>, zone: string)

  /** The nine canonical zones as a table, in priority order. */
  const ZoneRules: seq<ZoneRule> := [
    ZoneRule(["gotri"], "Gotri"),
    ZoneRule(["manjalpur"], "Manjalpur"),
    ZoneRule(["karelibaug"], "Karelibaug"),
    ZoneRule(["daman"], "Daman"),
    ZoneRule(["aatapi", "atapi"], "Aatapi"),
    ZoneRule(["waghodiya"], "Waghodiya"),
    ZoneRule(["ajwa"], "Ajwa Road"),
    ZoneRule(["chhani"], "Chhani"),
    ZoneRule(["anand"], "Anand")
  ]

  predicate RuleMatches(has: string -> bool, rule: ZoneRule) {
    exists p :: p in rule.patterns && has(p)
  }

  /** The zone of the first rule with a fragment in `has`, or `""`. */
  function FirstZone(has: string -> bool, rules: seq<ZoneRule>): string {
    if rules == [] then ""
    else if RuleMatches(has, rules[0]) then rules[0].zone
    else FirstZone(has, rules[1..])
  }

  /** The first matching rule wins, and no match gives `""`. */
  lemma {:induction false} FirstZoneFacts(has: string -> bool, rules: seq<ZoneRule>)
    requires forall i :: 0 <= i < |rules| ==> rules[i].zone != ""
    ensures FirstZone(has, rules) == "" <==> forall i :: 0 <= i < |rules| ==> !RuleMatches(has, rules[i])
    ensures FirstZone(has, rules) != "" ==>
      exists i :: (0 <= i < |rules| && RuleMatches(has, rules[i])
        && FirstZone(has, rules) == rules[i].zone && forall j :: 0 <= j < i ==> !RuleMatches(has, rules[j]))
  {
    if rules != [] && !RuleMatches(has, rules[0]) {
      FirstZoneFacts(has, rules[1..]);
      if FirstZone(has, rules) != "" {
        var i :| 0 <= i < |rules[1..]| && RuleMatches(has, rules[1..][i])
          && FirstZone(has, rules[1..]) == rules[1..][i].zone && forall j :: 0 <= j < i ==> !RuleMatches(has, rules[1..][j]);
        assert rules[i + 1] == rules[1..][i];
        forall j | 0 <= j < i + 1 ensures !RuleMatches(has, rules[j]) {
          if j > 0 {
            assert rules[j] == rules[1..][j - 1];
          }
        }
      } else {
        forall i | 0 <= i < |rules| ensures !RuleMatches(has, rules[i]) {
          if i > 0 {
            assert rules[i] == rules[1..][i - 1];
          }
        }
      }
    }
  }

  /** A one-fragment rule at the head of the table. */
  lemma FirstZoneSingle(has: string -> bool, rules: seq<ZoneRule>, p: string, z: string)
    requires rules != [] && rules[0] == ZoneRule([p], z)
    ensures FirstZone(has, rules) == if has(p) then z else FirstZone(has, rules[1..])
  {
    if has(p) {
      assert p in rules[0].patterns;
    }
  }

  /** The two-fragment rule at the head of the table. */
  lemma FirstZonePair(has: string -> bool, rules: seq<ZoneRule>, p: string, q: string, z: string)
    requires rules != [] && rules[0] == ZoneRule([p, q], z)
    ensures FirstZone(has, rules) == if has(p) || has(q) then z else FirstZone(has, rules[1..])
  {
    if has(p) {
      assert p in rules[0].patterns;
    }
    if has(q) {
      assert q in rules[0].patterns;
    }
  }

  /** The last three rules of the table. */
  lemma ZoneRulesFrom6(has: string -> bool)
    ensures FirstZone(has, ZoneRules[6..]) ==
      if has("ajwa") then "Ajwa Road" else if has("chhani") then "Chhani" else if has("anand") then "Anand" else ""
  {
    var rs := ZoneRules;
    FirstZoneSingle(has, rs[6..], "ajwa", "Ajwa Road");
    assert rs[6..][1..] == rs[7..];
    FirstZoneSingle(has, rs[7..], "chhani", "Chhani");
    assert rs[7..][1..] == rs[8..];
    FirstZoneSingle(has, rs[8..], "anand", "Anand");
    assert rs[8..][1..] == [];
  }

  /** The middle three rules of the table. */
  lemma ZoneRulesFrom3(has: string -> bool)
    ensures FirstZone(has, ZoneRules[3..]) ==
      if has("daman") then "Daman" else if has("aatapi") || has("atapi") then "Aatapi"
      else if has("waghodiya") then "Waghodiya" else FirstZone(has, ZoneRules[6..])
  {
    var rs := ZoneRules;
    FirstZoneSingle(has, rs[3..], "daman", "Daman");
    assert rs[3..][1..] == rs[4..];
    FirstZonePair(has, rs[4..], "aatapi", "atapi", "Aatapi");
    assert rs[4..][1..] == rs[5..];
    FirstZoneSingle(has, rs[5..], "waghodiya", "Waghodiya");
    assert rs[5..][1..] == rs[6..];
  }

  /** The `includes` chain is the first-match rule over the zone table. */
  lemma ZoneByIsFirstZone(has: string -> bool)
    ensures ZoneBy(has) == FirstZone(has, ZoneRules)
  {
    var rs := ZoneRules;
    ZoneRulesFrom6(has);
    ZoneRulesFrom3(has);
    FirstZoneSingle(has, rs, "gotri", "Gotri");
    FirstZoneSingle(has, rs[1..], "manjalpur", "Manjalpur");
    assert rs[1..][1..] == rs[2..];
    FirstZoneSingle(has, rs[2..], "karelibaug", "Karelibaug");
    assert rs[2..][1..] == rs[3..];
  }

  /** The nine zone names. */
  predicate IsZoneName(z: string) {
    exists i :: 0 <= i < |ZoneRules| && ZoneRules[i].zone == z
  }

  /** `normalizeZone` gives one of the nine zones or `""`: the zone of the
      first table rule with a fragment in the cleaned text, and `""` when
      no rule has one (or the input is blank). */
  lemma NormalizeZoneFacts(value: string)
    ensures NormalizeZone(value) == "" || IsZoneName(NormalizeZone(value))
    ensures Lower(Trim(value)) != "" ==> NormalizeZone(value) == FirstZone(Fragments(Cleaned(Lower(Trim(value)))), ZoneRules)
  {
    var raw := Lower(Trim(value));
    if raw != "" {
      var c := Cleaned(raw);
      ZoneByIsFirstZone(Fragments(c));
      FirstZoneFacts(Fragments(c), ZoneRules);
    }
  }

  // ---------------------------------------------------------------------
  // Rows
  // ---------------------------------------------------------------------

  /** The parsed `meta` object; an absent or unparsable one is all `""`. */
  datatype Meta = Meta(expectedEndTime: string, zone: string)

  /** A rental as listed; a missing text field is `""`, a missing amount 0. */
  datatype Rental = Rental(
    id: string,
    riderId: string,
    riderMobile: string,
    riderCode: string,
    riderFullName: string,
    startTime: Stamp,
    expectedEndTime: string,
    returnedAt: string,
    paymentMode: string,
    depositAmount: int,
    rentalAmount: int,
    totalAmount: int,
    zone: string,
    operationalZone: string,
    vehicleNumber: string,
    bikeId: string,
    batteryId: string,
    rentalPackage: string,
    meta: Meta)

  datatype Status = Active | Returned

  /** A display row: the rental and what `baseRows` and `rows` add to it. */
  datatype Row = Row(
    rental: Rental,
    expectedEnd: string,
    status: Status,
    paymentModeDisplay: string,
    deposit: int,
    rent: int,
    total: int,
    zoneDisplay: string,
    rentalIdDisplay: string)

  /** The rider key of the ride numbering. */
  function LabelKey(r: Rental): string {
    Trim(Or(Or(r.riderId, r.riderMobile), r.riderCode))
  }

  function RentalId(r: Rental): string {
    r.id
  }

  function StartOf(r: Rental): int {
    TimeKey(r.startTime)
  }

  /** `rentalIdMap`: it reads only the rental's own fields, so it is built
      from the rentals. */
  function RentalLabels(data: seq<Rental>): map<string, string> {
    RideLabels.RideLabels(data, LabelKey, RentalId, StartOf)
  }

  /** One element of `baseRows` followed by its `rows` step. */
  function RowOf(r: Rental, labels: map<string, string>, format: string -> string): Row {
    Row(r,
        Or(r.expectedEndTime, r.meta.expectedEndTime),
        if r.returnedAt != "" then Returned else Active,
        Or(Trim(r.paymentMode), "-"),
        r.depositAmount,
        r.rentalAmount,
        r.totalAmount,
        Or(NormalizeZone(Or(Or(r.zone, r.operationalZone), r.meta.zone)), "-"),
        if r.id in labels && labels[r.id] != "" then labels[r.id] else format(r.id))
  }

  /** `rows`, with `formatRentalId` as `format`. */
  function Rows(data: seq<Rental>, format: string -> string): (rows: seq<Row>)
    ensures |rows| == |data|
    ensures forall i :: 0 <= i < |data| ==> rows[i] == RowOf(data[i], RentalLabels(data), format)
  {
    seq(|data|, i requires 0 <= i < |data| => RowOf(data[i], RentalLabels(data), format))
  }

  /** A rental is returned exactly when it has a return time; the expected
      end falls back to the meta value; the zone shown is a canonical zone
      or `-`; a blank payment mode shows as `-`. */
  lemma RowFacts(r: Rental, labels: map<string, string>, format: string -> string)
    ensures RowOf(r, labels, format).status == Returned <==> r.returnedAt != ""
    ensures RowOf(r, labels, format).expectedEnd == (if r.expectedEndTime != "" then r.expectedEndTime else r.meta.expectedEndTime)
    ensures RowOf(r, labels, format).zoneDisplay == "-" || IsZoneName(RowOf(r, labels, format).zoneDisplay)
    ensures RowOf(r, labels, format).paymentModeDisplay == "-" <==> Trim(r.paymentMode) == "" || Trim(r.paymentMode) == "-"
  {
    NormalizeZoneFacts(Or(Or(r.zone, r.operationalZone), r.meta.zone));
  }

  /** A rental with a rider key shows its ride number: its position, from 1,
      among that rider's rides ordered by start. */
  lemma RowShowsRideNumber(data: seq<Rental>, format: string -> string, i: nat)
    requires RideLabels.UniqueIds(data, RentalId)
    requires i < |data| && LabelKey(data[i]) != ""
    ensures var sorted := SortBy(Members(data, LabelKey, LabelKey(data[i])), StartOf);
      exists j :: 0 <= j < |sorted| && sorted[j] == data[i]
        && Rows(data, format)[i].rentalIdDisplay == RideLabels.Label(j + 1)
  {
    RideLabels.RowLabel(data, LabelKey, RentalId, StartOf, i);
  }

  /** A rental whose id no keyed rental carries shows `formatRentalId`. */
  lemma RowFallsBackToFormat(data: seq<Rental>, format: string -> string, i: nat)
    requires i < |data|
    requires forall a :: 0 <= a < |data| && LabelKey(data[a]) != "" ==> data[a].id != data[i].id
    ensures Rows(data, format)[i].rentalIdDisplay == format(data[i].id)
  {
    RideLabels.RideLabelsDomain(data, LabelKey, RentalId, StartOf, data[i].id);
  }

  // ---------------------------------------------------------------------
  // Rider groups
  // ---------------------------------------------------------------------

  /** The group key: the rider's id, mobile or code, else the ride's own id. */
  function GroupKey(r: Row): string {
    Or(Or(Or(r.rental.riderId, r.rental.riderMobile), r.rental.riderCode), r.rental.id)
  }

  function StartKey(r: Row): int {
    TimeKey(r.rental.startTime)
  }

  /** `sorted.find((r) => r.status_display === "Active")`, as an index;
      `|s|` when there is none. */
  function FirstActive(s: seq<Row>): (i: nat)
    ensures i <= |s|
    ensures i < |s| ==> s[i].status == Active
    ensures forall j :: 0 <= j < i ==> s[j].status != Active
  {
    if s == [] then 0
    else if s[0].status == Active then 0
    else 1 + FirstActive(s[1..])
  }

  /** `active || sorted[0]`. */
  function Primary(sorted: seq<Row>): Row
    requires sorted != []
  {
    var i := FirstActive(sorted);
    if i < |sorted| then sorted[i] else sorted[0]
  }

  /** The primary ride is one of the rides. It is active exactly when some
      ride is, and then it is the latest active ride; otherwise it is the
      latest ride. */
  lemma PrimaryFacts(sorted: seq<Row>)
    requires sorted != [] && SortedDescBy(sorted, StartKey)
    ensures Primary(sorted) in sorted
    ensures Primary(sorted).status == Active <==> exists r :: r in sorted && r.status == Active
    ensures Primary(sorted).status == Active ==>
      forall r :: r in sorted && r.status == Active ==> StartKey(r) <= StartKey(Primary(sorted))
    ensures Primary(sorted).status != Active ==>
      forall r :: r in sorted ==> StartKey(r) <= StartKey(Primary(sorted))
  {
    var i := FirstActive(sorted);
    forall r | r in sorted && r.status == Active
      ensures i < |sorted| && StartKey(r) <= StartKey(sorted[i])
    {
      var j :| 0 <= j < |sorted| && sorted[j] == r;
      assert i <= j;
    }
  }

  /** One rider's group: the fields of its first row, the rides newest first. */
  datatype RiderGroup = RiderGroup(
    key: string,
    riderId: string,
    riderFullName: string,
    riderMobile: string,
    riderCode: string,
    rides: seq<Row>,
    primary: Row,
    rideCount: nat)

  function GroupOf(k: string, list: seq<Row>): RiderGroup
    requires list != []
  {
    var first := list[0].rental;
    var sorted := SortDescBy(list, StartKey);
    RiderGroup(k, first.riderId, Or(first.riderFullName, "-"), Or(first.riderMobile, "-"), first.riderCode,
               sorted, Primary(sorted), |sorted|)
  }

  /** A group's rides are its rows newest first, and its count is their number. */
  lemma GroupOfFacts(k: string, list: seq<Row>)
    requires list != []
    ensures GroupOf(k, list).key == k
    ensures multiset(GroupOf(k, list).rides) == multiset(list)
    ensures SortedDescBy(GroupOf(k, list).rides, StartKey)
    ensures GroupOf(k, list).rideCount == |list| == |GroupOf(k, list).rides|
    ensures GroupOf(k, list).primary in list
  {
    var sorted := SortDescBy(list, StartKey);
    PrimaryFacts(sorted);
    assert Primary(sorted) in multiset(sorted);
  }

  /** The groups of the listed keys, in key order. */
  function Groups(keys: seq<string>, groups: map<string, seq<Row>>): (r: seq<RiderGroup>)
    requires forall k :: k in keys ==> k in groups && groups[k] != []
    ensures |r| == |keys|
    ensures forall i :: 0 <= i < |keys| ==> r[i] == GroupOf(keys[i], groups[keys[i]])
  {
    seq(|keys|, i requires 0 <= i < |keys| => GroupOf(keys[i], groups[keys[i]]))
  }

  /** `groupedRows`. */
  function GroupedRows(rows: seq<Row>): seq<RiderGroup> {
    GroupsNonEmpty(rows, GroupKey);
    Groups(KeysInOrder(rows, GroupKey), GroupMap(rows, GroupKey))
  }

  /** `groupedRows` as the screen computes it: the map filled in a
      `forEach`, then one group built per entry. */
  method BuildGroupedRows(rows: seq<Row>) returns (grouped: seq<RiderGroup>)
    ensures grouped == GroupedRows(rows)
  {
    var keys, groups := GroupBy(rows, GroupKey);
    GroupsNonEmpty(rows, GroupKey);
    grouped := GroupAll(keys, groups);
  }

  /** The loop over the map's entries that builds one group per key. */
  method GroupAll(keys: seq<string>, groups: map<string, seq<Row>>) returns (built: seq<RiderGroup>)
    requires forall k :: k in keys ==> k in groups && groups[k] != []
    ensures built == Groups(keys, groups)
  {
    built := [];
    for i := 0 to |keys|
      invariant |built| == i
      invariant forall j :: 0 <= j < i ==> built[j] == GroupOf(keys[j], groups[keys[j]])
    {
      built := built + [GroupOf(keys[i], groups[keys[i]])];
    }
  }

  /** Every group holds exactly the rows with its key: its rides are those
      rows newest first and its count is their number. */
  lemma GroupedRowsMembers(rows: seq<Row>, i: nat)
    requires i < |GroupedRows(rows)|
    ensures GroupedRows(rows)[i].key != ""
    ensures multiset(GroupedRows(rows)[i].rides) == multiset(Members(rows, GroupKey, GroupedRows(rows)[i].key))
    ensures forall x :: x in GroupedRows(rows)[i].rides <==> x in rows && GroupKey(x) == GroupedRows(rows)[i].key
    ensures SortedDescBy(GroupedRows(rows)[i].rides, StartKey)
    ensures GroupedRows(rows)[i].rideCount == |Members(rows, GroupKey, GroupedRows(rows)[i].key)|
  {
    var keys := KeysInOrder(rows, GroupKey);
    var k := keys[i];
    GroupsNonEmpty(rows, GroupKey);
    KeysNonBlank(rows, GroupKey);
    var list := GroupMap(rows, GroupKey)[k];
    assert list == Members(rows, GroupKey, k);
    GroupOfFacts(k, list);
    forall x ensures x in GroupedRows(rows)[i].rides <==> x in rows && GroupKey(x) == k {
      MemberIff(rows, GroupKey, k, x);
      assert x in GroupedRows(rows)[i].rides <==> x in multiset(list);
    }
  }

  /** No two groups share a key. */
  lemma GroupKeysDistinct(rows: seq<Row>, i: nat, j: nat)
    requires i < j < |GroupedRows(rows)|
    ensures GroupedRows(rows)[i].key != GroupedRows(rows)[j].key
  {
    KeysInOrderFacts(rows, GroupKey);
  }

  /** Because the key falls back to the ride id, a row with an id lies in
      exactly one group: the one with its key. */
  lemma RowInOneGroup(rows: seq<Row>, x: Row)
    requires x in rows && x.rental.id != ""
    ensures exists i :: 0 <= i < |GroupedRows(rows)| && x in GroupedRows(rows)[i].rides
    ensures forall i :: 0 <= i < |GroupedRows(rows)| && x in GroupedRows(rows)[i].rides ==>
      GroupedRows(rows)[i].key == GroupKey(x)
  {
    var keys := KeysInOrder(rows, GroupKey);
    KeysInOrderFacts(rows, GroupKey);
    var a :| 0 <= a < |rows| && rows[a] == x;
    assert GroupKey(x) in keys;
    var i :| 0 <= i < |keys| && keys[i] == GroupKey(x);
    GroupedRowsMembers(rows, i);
    forall j | 0 <= j < |GroupedRows(rows)| && x in GroupedRows(rows)[j].rides
      ensures GroupedRows(rows)[j].key == GroupKey(x)
    {
      GroupedRowsMembers(rows, j);
    }
  }

  function RideCount(g: RiderGroup): int {
    g.rideCount
  }

  lemma {:induction false} GroupsCount(keys: seq<string>, rows: seq<Row>)
    requires forall k :: k in keys ==> k in GroupMap(rows, GroupKey) && GroupMap(rows, GroupKey)[k] != []
    ensures SumBy(Groups(keys, GroupMap(rows, GroupKey)), RideCount) == SumBy(keys, k => |Members(rows, GroupKey, k)|)
  {
    if keys != [] {
      var groups := GroupMap(rows, GroupKey);
      GroupsCount(keys[1..], rows);
      assert Groups(keys, groups)[1..] == Groups(keys[1..], groups);
      GroupOfFacts(keys[0], groups[keys[0]]);
      assert groups[keys[0]] == Members(rows, GroupKey, keys[0]);
    }
  }

  /** The ride counts add up to the number of rows with a key: no ride is
      counted in two groups. */
  lemma RideCountsSum(rows: seq<Row>)
    ensures SumBy(GroupedRows(rows), RideCount) == |Keyed(rows, GroupKey)|
  {
    GroupsNonEmpty(rows, GroupKey);
    GroupsCount(KeysInOrder(rows, GroupKey), rows);
    GroupSizesSum(rows, GroupKey);
  }

  // ---------------------------------------------------------------------
  // Filter
  // ---------------------------------------------------------------------

  /** The search box, the status select and the date range. */
  datatype Filters = Filters(search: string, status: string, from: DayBound, to: DayBound)

  function StatusText(s: Status): string {
    if s == Active then "Active" else "Returned"
  }

  function Query(search: string): string {
    Lower(Trim(search))
  }

  /** `matches(value)`. */
  predicate Mentions(v: string, q: string) {
    Contains(Lower(v), q)
  }

  /** The eight ride fields the search looks at. */
  function RideFields(r: Row): seq<string> {
    [r.rental.vehicleNumber, r.rental.bikeId, r.rental.batteryId, r.rental.rentalPackage,
     r.paymentModeDisplay, r.zoneDisplay, r.rental.id, r.rentalIdDisplay]
  }

  predicate RideMentions(r: Row, q: string) {
    exists v :: v in RideFields(r) && Mentions(v, q)
  }

  /** The query is in a group field or in a field of one of its rides. */
  predicate GroupMentions(g: RiderGroup, q: string) {
    Mentions(g.riderFullName, q) || Mentions(g.riderMobile, q) || Mentions(g.riderCode, q)
    || exists r :: r in g.rides && RideMentions(r, q)
  }

  predicate StatusPasses(g: RiderGroup, status: string) {
    status == "all" || Lower(StatusText(g.primary.status)) == status
  }

  /** The test of `filteredRows`. */
  predicate GroupPasses(g: RiderGroup, f: Filters) {
    && StatusPasses(g, f.status)
    && IsWithinDateRange(g.primary.rental.startTime, f.from, f.to)
    && (Query(f.search) == "" || GroupMentions(g, Query(f.search)))
  }

  function FilteredGroups(groups: seq<RiderGroup>, f: Filters): seq<RiderGroup> {
    Filter(groups, g => GroupPasses(g, f))
  }

  /** The filter keeps exactly the passing groups, in their order, and
      with every filter blank it keeps them all. */
  lemma FilteredGroupsFacts(groups: seq<RiderGroup>, f: Filters)
    ensures forall g :: g in FilteredGroups(groups, f) <==> g in groups && GroupPasses(g, f)
    ensures IsSubsequence(FilteredGroups(groups, f), groups)
    ensures f.status == "all" && f.from == Blank && f.to == Blank && Query(f.search) == "" ==>
      FilteredGroups(groups, f) == groups
  {
    FilterIsSubsequence(groups, g => GroupPasses(g, f));
    if f.status == "all" && f.from == Blank && f.to == Blank && Query(f.search) == "" {
      FilterAll(groups, g => GroupPasses(g, f));
    }
  }

  /** The status options `active` and `returned` pick the groups whose
      primary ride has that status. */
  lemma StatusOptions(g: RiderGroup)
    ensures StatusPasses(g, "active") <==> g.primary.status == Active
    ensures StatusPasses(g, "returned") <==> g.primary.status == Returned
  {
    var a := Lower("Active");
    var r := Lower("Returned");
    assert a[0] == 'a' && |a| == 6;
    assert a == "active";
    assert r[0] == 'r' && |r| == 8;
    assert r == "returned";
  }

  /** A ride's field that contains the query keeps its whole group. */
  lemma RideMatchKeepsGroup(g: RiderGroup, f: Filters, r: Row, v: nat)
    requires StatusPasses(g, f.status) && IsWithinDateRange(g.primary.rental.startTime, f.from, f.to)
    requires r in g.rides && v < |RideFields(r)| && Mentions(RideFields(r)[v], Query(f.search))
    ensures GroupPasses(g, f)
  {
    assert RideFields(r)[v] in RideFields(r);
  }

  // ---------------------------------------------------------------------
  // Summary
  // ---------------------------------------------------------------------

  datatype Totals = Totals(totalRentals: nat, activeRentals: nat, returnedRentals: int, depositTotal: int, rentTotal: int)

  predicate IsActive(r: Row) {
    r.status == Active
  }

  predicate IsReturned(r: Row) {
    r.status == Returned
  }

  function Deposit(r: Row): int {
    r.deposit
  }

  function Rent(r: Row): int {
    r.rent
  }

  /** `summary`, over every row whatever the filters. */
  function Summary(rows: seq<Row>): Totals {
    var active := CountBy(rows, IsActive);
    Totals(|rows|, active, |rows| - active, SumBy(rows, Deposit), SumBy(rows, Rent))
  }

  /** `total − active` is the number of returned rentals, and the money
      totals are the amounts of the listed rentals. */
  lemma SummaryFacts(data: seq<Rental>, format: string -> string)
    ensures Summary(Rows(data, format)).returnedRentals == CountBy(Rows(data, format), IsReturned)
    ensures Summary(Rows(data, format)).returnedRentals == CountBy(data, (r: Rental) => r.returnedAt != "")
    ensures Summary(Rows(data, format)).depositTotal == SumBy(data, (r: Rental) => r.depositAmount)
    ensures Summary(Rows(data, format)).rentTotal == SumBy(data, (r: Rental) => r.rentalAmount)
  {
    var rows := Rows(data, format);
    CountComplement(rows, IsActive, IsReturned);
    RowsSums(data, rows, RentalLabels(data), format);
  }

  /** Row by row, the rows carry the rentals' returns and amounts. */
  lemma RowsSums(data: seq<Rental>, rows: seq<Row>, labels: map<string, string>, format: string -> string)
    requires |rows| == |data|
    requires forall i :: 0 <= i < |data| ==> rows[i] == RowOf(data[i], labels, format)
    ensures CountBy(rows, IsReturned) == CountBy(data, (r: Rental) => r.returnedAt != "")
    ensures SumBy(rows, Deposit) == SumBy(data, (r: Rental) => r.depositAmount)
    ensures SumBy(rows, Rent) == SumBy(data, (r: Rental) => r.rentalAmount)
  {
    RowsReturned(data, rows, labels, format);
    RowsAmounts(data, rows, labels, format);
  }

  lemma {:induction false} RowsReturned(data: seq<Rental>, rows: seq<Row>, labels: map<string, string>, format: string -> string)
    requires |rows| == |data|
    requires forall i :: 0 <= i < |data| ==> rows[i] == RowOf(data[i], labels, format)
    ensures CountBy(rows, IsReturned) == CountBy(data, (r: Rental) => r.returnedAt != "")
  {
    if data != [] {
      assert IsReturned(rows[0]) <==> data[0].returnedAt != "";
      RowsReturned(data[1..], rows[1..], labels, format);
    }
  }

  lemma {:induction false} RowsAmounts(data: seq<Rental>, rows: seq<Row>, labels: map<string, string>, format: string -> string)
    requires |rows| == |data|
    requires forall i :: 0 <= i < |data| ==> rows[i] == RowOf(data[i], labels, format)
    ensures SumBy(rows, Deposit) == SumBy(data, (r: Rental) => r.depositAmount)
    ensures SumBy(rows, Rent) == SumBy(data, (r: Rental) => r.rentalAmount)
  {
    if data != [] {
      assert Deposit(rows[0]) == data[0].depositAmount && Rent(rows[0]) == data[0].rentalAmount;
      RowsAmounts(data[1..], rows[1..], labels, format);
    }
  }

  // ---------------------------------------------------------------------
  // Screen state
  // ---------------------------------------------------------------------

  /** The keys of the riders whose rides are shown. */
  class RentalsScreen {
    var expanded: seq<string>

    constructor ()
      ensures expanded == []
    {
      expanded := [];
    }

    /** `toggleExpanded`. */
    method ToggleExpanded(key: string)
      modifies this
      ensures expanded == Toggle(old(expanded), key)
      ensures key in expanded <==> key !in old(expanded)
      ensures forall k :: k != key ==> (k in expanded <==> k in old(expanded))
      ensures NoDup(old(expanded)) ==> NoDup(expanded)
    {
      ToggleMembership(expanded, key);
      if NoDup(expanded) {
        ToggleNoDup(expanded, key);
      }
      expanded := Toggle(expanded, key);
    }
  }
}
