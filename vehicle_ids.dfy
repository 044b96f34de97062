/**
 * The shared vehicle-ID catalogue: groups of display IDs under a model label,
 * the search key of an ID, the flat de-duplicated option list, the groups
 * offered for a chosen model and the search filter over groups.
 */
module VehicleIds {
  import opened Wrappers
  import opened Strings
  import opened Seqs

  /** One catalogue entry: a model label and its vehicle IDs as displayed. */
  datatype Group = Group(model: string, ids: seq<string>)

  const Catalogue: seq<Group> := [
    Group("Paddle Cycle", [
      "PC 01-A", "PC 02-A", "PC 03-A", "PC 04-A", "PC 05-A", "PC 06-A", "PC 07-A",
      "PC 08-A", "PC 09-A", "PC 10-A", "PC 11-A", "PC 12-A", "PC 13-A", "PC 14-A",
      "PC 01-D", "PC 02-D", "PC 03-D", "PC 04-D", "PC 05-D", "PC 06-D", "PC 07-D",
      "PC 08-D", "PC 09-D", "PC 10-D", "PC 11-D", "PC 12-D"]),
    Group("Electric Cycle", [
      "EC 01-A", "EC 02-A", "EC 03-A", "EC 04-A", "EC 05-A", "EC 06-A",
      "EC 01-D", "EC 02-D", "EC 03-D", "EC 04-D", "EC 05-D", "EC 06-D"]),
    Group("EV Kick Scooter", ["KS 001-A", "KS 002-A", "KS 003-A", "KS 004-A", "KS 001-D", "KS 002-D"]),
    Group("Kids EV Car", ["TC 01-A", "TC 02-A", "TC 01-D", "TC 02-D"]),
    Group("Kids Paddle Scooter", ["PS 01-A", "PS 02-A"]),
    Group("Double Seat Cycle", ["DS 01-A", "DS 02-A"]),
    Group("MINK", [
      "EVM1024002", "EVM1024003", "EVM1024004", "EVM1024005", "EVM1024006", "EVM1024009",
      "EVM1024010", "EVM1024011", "EVM1024012", "EVM1024014", "EVM1024016", "EVM1024017",
      "EVM1024018", "EVM1024019", "EVM1024020", "EVM1024021", "EVM1024022", "EVM1024023",
      "EVM1025029", "EVM1025030", "EVM1025031", "EVM1025032", "EVM1025033", "EVM1025034",
      "EVM1025035", "EVM1025036", "EVM1025037", "EVM1025038", "EVM1024001", "EVM1025026",
      "EVM1025027", "EVM1025028"]),
    Group("CITY", ["EVM2025001", "EVM2025002", "EVM2025004", "EVM2025005", "EVM2025006"]),
    Group("KING", ["EVM2025007", "EVM2025008", "EVM2025009"])
  ]

  /** `VEHICLE_MODEL_OPTIONS`: the catalogue's labels. */
  function VehicleModelOptions(): (r: seq<string>)
    ensures r == ["Paddle Cycle", "Electric Cycle", "EV Kick Scooter", "Kids EV Car",
                  "Kids Paddle Scooter", "Double Seat Cycle", "MINK", "CITY", "KING"]
  {
    seq(|Catalogue|, i requires 0 <= i < |Catalogue| => Catalogue[i].model)
  }

  /** `normalizeForSearch`: drop everything but ASCII letters and digits, then upper-case. */
  function NormalizeForSearch(s: string): (r: string)
    ensures |r| <= |s|
    ensures forall i :: 0 <= i < |r| ==> IsUpper(r[i]) || IsDigit(r[i])
  {
    Upper(Filter(s, c => IsAlnum(c)))
  }

  /** Normalising is idempotent: a search key is its own key. */
  lemma NormalizeIdempotent(s: string)
    ensures NormalizeForSearch(NormalizeForSearch(s)) == NormalizeForSearch(s)
  {
    var r := NormalizeForSearch(s);
    FilterAll(r, c => IsAlnum(c));
    assert Upper(r) == r;
  }

  /** Only letters and digits count: characters outside them do not change the key. */
  lemma NormalizeIgnoresSeparators(a: string, b: string, c: char)
    requires !IsAlnum(c)
    ensures NormalizeForSearch(a + [c] + b) == NormalizeForSearch(a + b)
  {
    FilterConcat(a + [c], b, c => IsAlnum(c));
    FilterConcat(a, [c], c => IsAlnum(c));
    FilterConcat(a, b, c => IsAlnum(c));
    assert Filter([c], c => IsAlnum(c)) == [] + Filter([], c => IsAlnum(c));
    assert Filter(a + [c] + b, c => IsAlnum(c)) == Filter(a + b, c => IsAlnum(c));
  }

  /** Every ID of the groups, group by group. */
  function AllIds(groups: seq<Group>): seq<string>
    decreases |groups|
  {
    if groups == [] then [] else AllIds(groups[..|groups| - 1]) + groups[|groups| - 1].ids
  }

  lemma {:induction false} AllIdsMember(groups: seq<Group>, id: string)
    ensures id in AllIds(groups) <==> exists g :: 0 <= g < |groups| && id in groups[g].ids
    decreases |groups|
  {
    if groups != [] {
      var p := groups[..|groups| - 1];
      AllIdsMember(p, id);
      if exists g :: 0 <= g < |groups| && id in groups[g].ids {
        var g :| 0 <= g < |groups| && id in groups[g].ids;
        if g < |p| {
          assert p[g] == groups[g];
        }
      }
      if exists g :: 0 <= g < |p| && id in p[g].ids {
        var g :| 0 <= g < |p| && id in p[g].ids;
        assert groups[g] == p[g];
      }
    }
  }

  /** The search keys already taken by `ids`. */
  function KeySet(ids: seq<string>): set<string> {
    set i | 0 <= i < |ids| :: NormalizeForSearch(ids[i])
  }

  /** The flat list `flattenVehicleIdGroups` builds from a list of IDs: an ID
      is kept when its key is non-blank and not yet taken. */
  function FirstByKey(ids: seq<string>): seq<string>
    decreases |ids|
  {
    if ids == [] then []
    else
      var out := FirstByKey(ids[..|ids| - 1]);
      var k := NormalizeForSearch(ids[|ids| - 1]);
      if k == "" || k in KeySet(out) then out else out + [ids[|ids| - 1]]
  }

  lemma KeySetSnoc(out: seq<string>, id: string)
    ensures KeySet(out + [id]) == KeySet(out) + {NormalizeForSearch(id)}
  {
    var s := out + [id];
    forall k | k in KeySet(s) ensures k in KeySet(out) + {NormalizeForSearch(id)} {
      var i :| 0 <= i < |s| && NormalizeForSearch(s[i]) == k;
      if i < |out| {
        assert s[i] == out[i];
      }
    }
    forall k | k in KeySet(out) ensures k in KeySet(s) {
      var i :| 0 <= i < |out| && NormalizeForSearch(out[i]) == k;
      assert s[i] == out[i];
    }
    assert s[|out|] == id;
  }

  /** The non-blank search keys of a list of IDs. */
  function KeysOf(ids: seq<string>): set<string> {
    set i | 0 <= i < |ids| && NormalizeForSearch(ids[i]) != "" :: NormalizeForSearch(ids[i])
  }

  lemma KeysOfSnoc(ids: seq<string>)
    requires ids != []
    ensures var k := NormalizeForSearch(ids[|ids| - 1]);
      KeysOf(ids) == KeysOf(ids[..|ids| - 1]) + (if k != "" then {k} else {})
  {
    var p := ids[..|ids| - 1];
    var k := NormalizeForSearch(ids[|ids| - 1]);
    forall x | x in KeysOf(ids) ensures x in KeysOf(p) + (if k != "" then {k} else {}) {
      var i :| 0 <= i < |ids| && NormalizeForSearch(ids[i]) != "" && NormalizeForSearch(ids[i]) == x;
      if i < |p| {
        assert p[i] == ids[i];
      }
    }
    forall x | x in KeysOf(p) ensures x in KeysOf(ids) {
      var i :| 0 <= i < |p| && NormalizeForSearch(p[i]) != "" && NormalizeForSearch(p[i]) == x;
      assert ids[i] == p[i];
    }
  }

  /** The flat list takes every non-blank key of the input exactly once. */
  lemma FirstByKeyKeys(ids: seq<string>)
    ensures KeySet(FirstByKey(ids)) == set i | 0 <= i < |ids| && NormalizeForSearch(ids[i]) != "" :: NormalizeForSearch(ids[i])
    ensures forall i, j :: 0 <= i < j < |FirstByKey(ids)| ==> NormalizeForSearch(FirstByKey(ids)[i]) != NormalizeForSearch(FirstByKey(ids)[j])
    ensures forall i :: 0 <= i < |FirstByKey(ids)| ==> NormalizeForSearch(FirstByKey(ids)[i]) != ""
  {
    FirstByKeyKeySet(ids);
    FirstByKeyDistinct(ids);
  }

  lemma {:induction false} FirstByKeyKeySet(ids: seq<string>)
    ensures KeySet(FirstByKey(ids)) == KeysOf(ids)
    decreases |ids|
  {
    if ids != [] {
      var p := ids[..|ids| - 1];
      var id := ids[|ids| - 1];
      var out := FirstByKey(p);
      var k := NormalizeForSearch(id);
      FirstByKeyKeySet(p);
      KeysOfSnoc(ids);
      if !(k == "" || k in KeySet(out)) {
        KeySetSnoc(out, id);
      }
    }
  }

  lemma {:induction false} FirstByKeyDistinct(ids: seq<string>)
    ensures forall i, j :: 0 <= i < j < |FirstByKey(ids)| ==> NormalizeForSearch(FirstByKey(ids)[i]) != NormalizeForSearch(FirstByKey(ids)[j])
    ensures forall i :: 0 <= i < |FirstByKey(ids)| ==> NormalizeForSearch(FirstByKey(ids)[i]) != ""
    decreases |ids|
  {
    if ids != [] {
      var p := ids[..|ids| - 1];
      var id := ids[|ids| - 1];
      var out := FirstByKey(p);
      var k := NormalizeForSearch(id);
      FirstByKeyDistinct(p);
      if !(k == "" || k in KeySet(out)) {
        var r := out + [id];
        forall i | 0 <= i < |out| ensures NormalizeForSearch(r[i]) != k {
          assert NormalizeForSearch(out[i]) in KeySet(out);
        }
      }
    }
  }

  /** The flat list keeps input order: it is a subsequence of the input. */
  lemma {:induction false} FirstByKeySubsequence(ids: seq<string>)
    ensures IsSubsequence(FirstByKey(ids), ids)
    decreases |ids|
  {
    if ids != [] {
      var p := ids[..|ids| - 1];
      FirstByKeySubsequence(p);
      SubsequenceSnoc(FirstByKey(p), p, ids[|ids| - 1]);
      assert p + [ids[|ids| - 1]] == ids;
    }
  }

  /** The first ID carrying a key wins: every kept ID is the earliest input
      ID with its key. */
  lemma {:induction false} FirstByKeyFirstWins(ids: seq<string>, n: nat)
    requires n < |FirstByKey(ids)|
    ensures exists i :: (0 <= i < |ids| && ids[i] == FirstByKey(ids)[n]
      && forall j :: 0 <= j < i ==> NormalizeForSearch(ids[j]) != NormalizeForSearch(ids[i]))
    decreases |ids|
  {
    var p := ids[..|ids| - 1];
    var id := ids[|ids| - 1];
    var out := FirstByKey(p);
    if n < |out| {
      FirstByKeyFirstWins(p, n);
      var i :| 0 <= i < |p| && p[i] == out[n]
        && forall j :: 0 <= j < i ==> NormalizeForSearch(p[j]) != NormalizeForSearch(p[i]);
      assert ids[i] == p[i];
      forall j | 0 <= j < i ensures NormalizeForSearch(ids[j]) != NormalizeForSearch(ids[i]) {
        assert ids[j] == p[j];
      }
    } else {
      var i := |ids| - 1;
      var k := NormalizeForSearch(id);
      FirstByKeyKeySet(p);
      assert k !in KeysOf(p);
      forall j | 0 <= j < i ensures NormalizeForSearch(ids[j]) != k {
        assert ids[j] == p[j];
      }
    }
  }

  /** `flattenVehicleIdGroups`: walk every group's IDs in order, skipping an
      ID whose key is blank or already seen. */
  method FlattenVehicleIdGroups(groups: seq<Group>) returns (out: seq<string>)
    ensures out == FirstByKey(AllIds(groups))
  {
    out := [];
    var seen: set<string> := {};
    var g := 0;
    while g < |groups|
      invariant 0 <= g <= |groups|
      invariant out == FirstByKey(AllIds(groups[..g]))
      invariant seen == KeySet(out)
    {
      out, seen := AddGroupIds(out, seen, AllIds(groups[..g]), groups[g].ids);
      assert groups[..g + 1][..g] == groups[..g];
      assert groups[..g + 1][g] == groups[g];
      assert AllIds(groups[..g + 1]) == AllIds(groups[..g]) + groups[g].ids;
      g := g + 1;
    }
    assert groups[..g] == groups;
  }

  /** The inner walk over one group's IDs, after the IDs `before` of the
      earlier groups. */
  method AddGroupIds(out0: seq<string>, seen0: set<string>, before: seq<string>, ids: seq<string>)
    returns (out: seq<string>, seen: set<string>)
    requires out0 == FirstByKey(before) && seen0 == KeySet(out0)
    ensures out == FirstByKey(before + ids) && seen == KeySet(out)
  {
    out, seen := out0, seen0;
    var j := 0;
    assert before + ids[..0] == before;
    while j < |ids|
      invariant 0 <= j <= |ids|
      invariant out == FirstByKey(before + ids[..j])
      invariant seen == KeySet(out)
    {
      var key := NormalizeForSearch(ids[j]);
      assert (before + ids[..j + 1])[..|before + ids[..j + 1]| - 1] == before + ids[..j];
      if key != "" && key !in seen {
        KeySetSnoc(out, ids[j]);
        seen := seen + {key};
        out := out + [ids[j]];
      }
      j := j + 1;
    }
    assert ids[..j] == ids;
  }

  /** What the flat list is: IDs from the groups, in group-then-ID order,
      never two with the same key, never one with a blank key, and covering
      every non-blank key of the groups. */
  lemma FlattenFacts(groups: seq<Group>)
    ensures IsSubsequence(FirstByKey(AllIds(groups)), AllIds(groups))
    ensures forall n :: 0 <= n < |FirstByKey(AllIds(groups))| ==>
      exists g :: 0 <= g < |groups| && FirstByKey(AllIds(groups))[n] in groups[g].ids
    ensures forall i, j :: 0 <= i < j < |FirstByKey(AllIds(groups))| ==>
      NormalizeForSearch(FirstByKey(AllIds(groups))[i]) != NormalizeForSearch(FirstByKey(AllIds(groups))[j])
    ensures forall i :: 0 <= i < |FirstByKey(AllIds(groups))| ==> NormalizeForSearch(FirstByKey(AllIds(groups))[i]) != ""
    ensures forall g, id :: 0 <= g < |groups| && id in groups[g].ids && NormalizeForSearch(id) != "" ==>
      NormalizeForSearch(id) in KeySet(FirstByKey(AllIds(groups)))
  {
    var all := AllIds(groups);
    var out := FirstByKey(all);
    FirstByKeySubsequence(all);
    FirstByKeyKeys(all);
    forall n | 0 <= n < |out| ensures exists g :: 0 <= g < |groups| && out[n] in groups[g].ids {
      SubsequenceMember(out, all, out[n]);
      AllIdsMember(groups, out[n]);
    }
    forall g, id | 0 <= g < |groups| && id in groups[g].ids && NormalizeForSearch(id) != ""
      ensures NormalizeForSearch(id) in KeySet(out)
    {
      AllIdsMember(groups, id);
      var i :| 0 <= i < |all| && all[i] == id;
    }
  }

  /** `VEHICLE_MODEL_OPTIONS.find`-style lookup: the first group whose label
      has the given search key. */
  function FindByLabelKey(groups: seq<Group>, key: string): (r: Option<Group>)
    ensures r.Some? ==> r.value in groups && NormalizeForSearch(r.value.model) == key
    ensures r.None? ==> forall i :: 0 <= i < |groups| ==> NormalizeForSearch(groups[i].model) != key
    ensures r.Some? ==> exists i :: (0 <= i < |groups| && groups[i] == r.value
      && forall j :: 0 <= j < i ==> NormalizeForSearch(groups[j].model) != key)
  {
    if groups == [] then None
    else if NormalizeForSearch(groups[0].model) == key then Some(groups[0])
    else
      var r := FindByLabelKey(groups[1..], key);
      if r.Some? then
        ghost var i :| 0 <= i < |groups[1..]| && groups[1..][i] == r.value
          && forall j :: 0 <= j < i ==> NormalizeForSearch(groups[1..][j].model) != key;
        assert groups[i + 1] == r.value;
        r
      else r
  }

  /** `getVehicleIdGroupsForModel`: a blank model offers the whole catalogue;
      a model whose key matches a label's key offers that group only; anything
      else offers the whole catalogue. */
  function GroupsForModel(model: string): (r: seq<Group>)
    ensures Trim(model) == "" ==> r == Catalogue
    ensures Trim(model) != "" && (exists i :: 0 <= i < |Catalogue| && NormalizeForSearch(Catalogue[i].model) == NormalizeForSearch(Trim(model))) ==>
      |r| == 1 && r[0] in Catalogue && NormalizeForSearch(r[0].model) == NormalizeForSearch(Trim(model))
    ensures (forall i :: 0 <= i < |Catalogue| ==> NormalizeForSearch(Catalogue[i].model) != NormalizeForSearch(Trim(model))) ==> r == Catalogue
  {
    var m := Trim(model);
    if m == "" then Catalogue
    else
      match FindByLabelKey(Catalogue, NormalizeForSearch(m))
      case Some(g) => [g]
      case None => Catalogue
  }

  /** The two ways an ID can match a search: its upper-cased text contains
      the trimmed upper-cased query, or its key contains the query's key. */
  predicate IdMatches(id: string, q: string, qNorm: string) {
    (q != "" && Contains(Upper(id), q)) || (qNorm != "" && Contains(NormalizeForSearch(id), qNorm))
  }

  /** The group with only its matching IDs (`{ ...group, ids }`). */
  function Narrow(g: Group, q: string, qNorm: string): Group {
    g.(ids := Filter(g.ids, id => IdMatches(id, q, qNorm)))
  }

  /** The query as matched against upper-cased IDs: trimmed and upper-cased. */
  function QueryText(query: string): string {
    Upper(Trim(query))
  }

  /** The query as matched against ID keys. */
  function QueryKey(query: string): string {
    NormalizeForSearch(QueryText(query))
  }

  /** `filterVehicleIdGroups(query, groups)`. */
  function FilterVehicleIdGroups(query: string, groups: seq<Group>): seq<Group> {
    var q := QueryText(query);
    var qNorm := QueryKey(query);
    if q == "" && qNorm == "" then groups
    else
      Filter(NarrowAll(groups, q, qNorm), (g: Group) => |g.ids| > 0)
  }

  function NarrowAll(groups: seq<Group>, q: string, qNorm: string): (r: seq<Group>)
    ensures |r| == |groups| && forall i :: 0 <= i < |groups| ==> r[i] == Narrow(groups[i], q, qNorm)
  {
    seq(|groups|, i requires 0 <= i < |groups| => Narrow(groups[i], q, qNorm))
  }

  /** A blank query leaves the groups as they are. */
  lemma FilterBlankQuery(query: string, groups: seq<Group>)
    requires Trim(query) == ""
    ensures FilterVehicleIdGroups(query, groups) == groups
  {
  }

  /** Narrowing keeps the label and exactly the matching IDs, in order. */
  lemma NarrowFacts(g: Group, q: string, qNorm: string)
    ensures Narrow(g, q, qNorm).model == g.model
    ensures IsSubsequence(Narrow(g, q, qNorm).ids, g.ids)
    ensures forall id :: id in Narrow(g, q, qNorm).ids <==> id in g.ids && IdMatches(id, q, qNorm)
  {
    var n := Narrow(g, q, qNorm);
    FilterIsSubsequence(g.ids, id => IdMatches(id, q, qNorm));
    forall id ensures id in n.ids <==> id in g.ids && IdMatches(id, q, qNorm) {
      if id in n.ids {
        var k :| 0 <= k < |n.ids| && n.ids[k] == id;
      }
      if id in g.ids {
        var k :| 0 <= k < |g.ids| && g.ids[k] == id;
      }
    }
  }

  /** A non-blank query keeps exactly the narrowed groups that still have
      an ID, in catalogue order (so each keeps its label and its matching IDs
      in order, by `NarrowFacts`). */
  lemma FilterNonBlankQuery(query: string, groups: seq<Group>)
    requires Trim(query) != ""
    ensures forall g :: g in FilterVehicleIdGroups(query, groups) ==>
      g.ids != [] && exists i :: 0 <= i < |groups| && g == Narrow(groups[i], QueryText(query), QueryKey(query))
    ensures forall i :: 0 <= i < |groups| && Narrow(groups[i], QueryText(query), QueryKey(query)).ids != [] ==>
      Narrow(groups[i], QueryText(query), QueryKey(query)) in FilterVehicleIdGroups(query, groups)
    ensures IsSubsequence(FilterVehicleIdGroups(query, groups), NarrowAll(groups, QueryText(query), QueryKey(query)))
  {
    var q := QueryText(query);
    var qNorm := QueryKey(query);
    var narrowed := NarrowAll(groups, q, qNorm);
    assert q != [];
    assert FilterVehicleIdGroups(query, groups) == Filter(narrowed, (g: Group) => |g.ids| > 0);
    FilterIsSubsequence(narrowed, (g: Group) => |g.ids| > 0);
  }
}
