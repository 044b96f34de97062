/**
 * The ride numbering the rentals and returns tables show: rows are grouped
 * by rider, each rider's rides are ordered by start time, and the k-th ride
 * is labelled `EVR-NR_1` when k is 1 (a new rider) and `EVR-RR_k` after
 * that (a returning rider). The labels go into a `Map` from ride id to
 * label, filled group by group and ride by ride.
 *
 * The module is generic in the row type: `key` gives a row's rider key
 * (blank rows are not numbered), `id` the ride id the label is filed under
 * and `start` the start time the rides are ordered by.
 */
module RideLabels {
  import opened Strings
  import opened Seqs
  import opened Sorting
  import opened Grouping

  /** `` `EVR-${seq === 1 ? "NR" : "RR"}_${seq}` ``. */
  function Label(n: nat): string
    requires n >= 1
  {
    "EVR-" + (if n == 1 then "NR" else "RR") + "_" + NatToString(n)
  }

  /** The labels are told apart by their kind: only the first ride is `NR`. */
  lemma LabelKinds(n: nat)
    requires n >= 1
    ensures StartsWith(Label(n), "EVR-NR_") <==> n == 1
    ensures n >= 2 ==> StartsWith(Label(n), "EVR-RR_")
  {
    var kind := "EVR-" + (if n == 1 then "NR" else "RR") + "_";
    assert Label(n) == kind + NatToString(n);
    assert Label(n)[..7] == kind;
    if n != 1 {
      assert kind[4] == 'R' != "EVR-NR_"[4];
    }
  }

  /** `sorted.forEach((ride, index) => map.set(id(ride), label(index + 1)))`. */
  function LabelGroup<T>(m: map<string, string>, sorted: seq<T>, id: T -> string): map<string, string>
    decreases |sorted|
  {
    if sorted == [] then m
    else LabelGroup(m, sorted[..|sorted| - 1], id)[id(sorted[|sorted| - 1]) := Label(|sorted|)]
  }

  /** Every rider's group, in key order, its rides ordered by start. */
  function LabelAll<T>(m: map<string, string>, keys: seq<string>, groups: map<string, seq<T>>,
                       id: T -> string, start: T -> int): map<string, string>
    requires forall k :: k in keys ==> k in groups
    decreases |keys|
  {
    if keys == [] then m
    else LabelGroup(LabelAll(m, keys[..|keys| - 1], groups, id, start), SortBy(groups[keys[|keys| - 1]], start), id)
  }

  /** `rentalIdMap`. */
  function RideLabels<T>(rows: seq<T>, key: T -> string, id: T -> string, start: T -> int): map<string, string> {
    LabelAll(map[], KeysInOrder(rows, key), GroupMap(rows, key), id, start)
  }

  /** `rentalIdMap` as the screen fills it: the rows grouped in one
      `forEach`, then every group's sorted rides labelled in turn. */
  method BuildRideLabels<T>(rows: seq<T>, key: T -> string, id: T -> string, start: T -> int)
    returns (labels: map<string, string>)
    ensures labels == RideLabels(rows, key, id, start)
  {
    var keys, groups := GroupBy(rows, key);
    labels := LabelKeys(keys, groups, id, start);
  }

  /** The outer `forEach` over the rider keys. */
  method LabelKeys<T>(keys: seq<string>, groups: map<string, seq<T>>, id: T -> string, start: T -> int)
    returns (labels: map<string, string>)
    requires forall k :: k in keys ==> k in groups
    ensures labels == LabelAll(map[], keys, groups, id, start)
  {
    labels := map[];
    for i := 0 to |keys|
      invariant labels == LabelAll(map[], keys[..i], groups, id, start)
    {
      assert keys[..i + 1][..i] == keys[..i];
      var sorted := SortBy(groups[keys[i]], start);
      labels := LabelRides(labels, sorted, id);
    }
    assert keys[..|keys|] == keys;
  }

  /** The inner `forEach` over one rider's sorted rides. */
  method LabelRides<T>(m: map<string, string>, sorted: seq<T>, id: T -> string) returns (r: map<string, string>)
    ensures r == LabelGroup(m, sorted, id)
  {
    r := m;
    for j := 0 to |sorted|
      invariant r == LabelGroup(m, sorted[..j], id)
    {
      assert sorted[..j + 1][..j] == sorted[..j];
      r := r[id(sorted[j]) := Label(j + 1)];
    }
    assert sorted[..|sorted|] == sorted;
  }

  /** A ride keeps the label of its position when no later ride of the
      group has the same id. */
  lemma {:induction false} LabelGroupLast<T>(m: map<string, string>, s: seq<T>, id: T -> string, j: nat)
    requires j < |s|
    requires forall j' :: j < j' < |s| ==> id(s[j']) != id(s[j])
    ensures id(s[j]) in LabelGroup(m, s, id) && LabelGroup(m, s, id)[id(s[j])] == Label(j + 1)
    decreases |s|
  {
    if j < |s| - 1 {
      var p := s[..|s| - 1];
      assert p[j] == s[j];
      forall j' | j < j' < |p| ensures id(p[j']) != id(p[j]) {
        assert p[j'] == s[j'];
      }
      LabelGroupLast(m, p, id, j);
    }
  }

  /** An id no ride of the group has keeps what the map held. */
  lemma {:induction false} LabelGroupOther<T>(m: map<string, string>, s: seq<T>, id: T -> string, x: string)
    requires forall j :: 0 <= j < |s| ==> id(s[j]) != x
    ensures x in LabelGroup(m, s, id) <==> x in m
    ensures x in m ==> LabelGroup(m, s, id)[x] == m[x]
    decreases |s|
  {
    if s != [] {
      var p := s[..|s| - 1];
      forall j | 0 <= j < |p| ensures id(p[j]) != x {
        assert p[j] == s[j];
      }
      LabelGroupOther(m, p, id, x);
    }
  }

  /** Some ride of the list has id `x`. */
  predicate HasId<T>(s: seq<T>, id: T -> string, x: string) {
    exists j :: 0 <= j < |s| && id(s[j]) == x
  }

  lemma HasIdPermutation<T>(a: seq<T>, b: seq<T>, id: T -> string, x: string)
    requires multiset(a) == multiset(b)
    ensures HasId(a, id, x) <==> HasId(b, id, x)
  {
    if HasId(a, id, x) {
      var j :| 0 <= j < |a| && id(a[j]) == x;
      assert a[j] in multiset(b);
    }
    if HasId(b, id, x) {
      var j :| 0 <= j < |b| && id(b[j]) == x;
      assert b[j] in multiset(a);
    }
  }

  /** The ids a group files are the ids of its rides. */
  lemma {:induction false} LabelGroupDomain<T>(m: map<string, string>, s: seq<T>, id: T -> string, x: string)
    ensures x in LabelGroup(m, s, id) <==> x in m || HasId(s, id, x)
    decreases |s|
  {
    if s != [] {
      var p := s[..|s| - 1];
      LabelGroupDomain(m, p, id, x);
      if HasId(p, id, x) {
        var j :| 0 <= j < |p| && id(p[j]) == x;
        assert s[j] == p[j];
      }
      if HasId(s, id, x) {
        var j :| 0 <= j < |s| && id(s[j]) == x;
        if j < |p| {
          assert s[j] == p[j];
        }
      }
    }
  }

  /** The label of the `j`-th ride of group `i`, when neither a later ride
      of that group nor a ride of a later group has its id. */
  lemma {:induction false} LabelAllLookup<T>(m: map<string, string>, keys: seq<string>, groups: map<string, seq<T>>,
                                             id: T -> string, start: T -> int, i: nat, j: nat)
    requires forall k :: k in keys ==> k in groups
    requires i < |keys| && j < |SortBy(groups[keys[i]], start)|
    requires forall j' :: j < j' < |SortBy(groups[keys[i]], start)| ==>
      id(SortBy(groups[keys[i]], start)[j']) != id(SortBy(groups[keys[i]], start)[j])
    requires forall i', y :: i < i' < |keys| && y in groups[keys[i']] ==> id(y) != id(SortBy(groups[keys[i]], start)[j])
    ensures var x := id(SortBy(groups[keys[i]], start)[j]);
      x in LabelAll(m, keys, groups, id, start) && LabelAll(m, keys, groups, id, start)[x] == Label(j + 1)
    decreases |keys|
  {
    var sorted := SortBy(groups[keys[i]], start);
    var x := id(sorted[j]);
    var p := keys[..|keys| - 1];
    var last := SortBy(groups[keys[|keys| - 1]], start);
    if i == |keys| - 1 {
      LabelGroupLast(LabelAll(m, p, groups, id, start), last, id, j);
    } else {
      assert p[i] == keys[i];
      forall i', y | i < i' < |p| && y in groups[p[i']] ensures id(y) != x {
        assert p[i'] == keys[i'];
      }
      LabelAllLookup(m, p, groups, id, start, i, j);
      forall j' | 0 <= j' < |last| ensures id(last[j']) != x {
        assert last[j'] in multiset(groups[keys[|keys| - 1]]);
      }
      LabelGroupOther(LabelAll(m, p, groups, id, start), last, id, x);
    }
  }

  /** Some listed group has a ride with id `x`. */
  predicate InGroups<T>(keys: seq<string>, groups: map<string, seq<T>>, id: T -> string, x: string)
    requires forall k :: k in keys ==> k in groups
  {
    exists i :: 0 <= i < |keys| && HasId(groups[keys[i]], id, x)
  }

  /** The ids labelled are those of the rides of the listed groups. */
  lemma {:induction false} LabelAllDomain<T>(m: map<string, string>, keys: seq<string>, groups: map<string, seq<T>>,
                                             id: T -> string, start: T -> int, x: string)
    requires forall k :: k in keys ==> k in groups
    ensures x in LabelAll(m, keys, groups, id, start) <==> x in m || InGroups(keys, groups, id, x)
    decreases |keys|
  {
    if keys != [] {
      var p := keys[..|keys| - 1];
      var g := groups[keys[|keys| - 1]];
      LabelAllDomain(m, p, groups, id, start, x);
      LabelGroupDomain(LabelAll(m, p, groups, id, start), SortBy(g, start), id, x);
      HasIdPermutation(SortBy(g, start), g, id, x);
      InGroupsSnoc(keys, groups, id, x);
    }
  }

  lemma InGroupsSnoc<T>(keys: seq<string>, groups: map<string, seq<T>>, id: T -> string, x: string)
    requires keys != [] && forall k :: k in keys ==> k in groups
    ensures InGroups(keys, groups, id, x) <==>
      InGroups(keys[..|keys| - 1], groups, id, x) || HasId(groups[keys[|keys| - 1]], id, x)
  {
    var p := keys[..|keys| - 1];
    if InGroups(keys, groups, id, x) {
      var i :| 0 <= i < |keys| && HasId(groups[keys[i]], id, x);
      if i < |p| {
        assert p[i] == keys[i];
      }
    }
    if InGroups(p, groups, id, x) {
      var i :| 0 <= i < |p| && HasId(groups[p[i]], id, x);
      assert p[i] == keys[i];
    }
  }

  /** No two rows share a ride id. */
  predicate UniqueIds<T>(rows: seq<T>, id: T -> string) {
    forall a, b :: 0 <= a < |rows| && 0 <= b < |rows| && id(rows[a]) == id(rows[b]) ==> a == b
  }

  /** With unique ids, rows with the same id are the same row. */
  lemma SameIdSameRow<T>(rows: seq<T>, id: T -> string, y: T, z: T)
    requires UniqueIds(rows, id) && y in rows && z in rows
    ensures id(y) == id(z) ==> y == z
  {
    var a :| 0 <= a < |rows| && rows[a] == y;
    var b :| 0 <= b < |rows| && rows[b] == z;
  }

  /** The numbering: when ride ids are unique, the `j`-th ride of a rider,
      counting from 0 in order of start time, is labelled `Label(j + 1)`. */
  lemma RideLabelOf<T>(rows: seq<T>, key: T -> string, id: T -> string, start: T -> int, k: string, j: nat)
    requires UniqueIds(rows, id)
    requires k in KeysInOrder(rows, key)
    requires j < |SortBy(Members(rows, key, k), start)|
    ensures var x := id(SortBy(Members(rows, key, k), start)[j]);
      x in RideLabels(rows, key, id, start) && RideLabels(rows, key, id, start)[x] == Label(j + 1)
  {
    var keys := KeysInOrder(rows, key);
    var groups := GroupMap(rows, key);
    KeysInOrderFacts(rows, key);
    var i :| 0 <= i < |keys| && keys[i] == k;
    var g := Members(rows, key, k);
    assert groups[keys[i]] == g;
    var sorted := SortBy(g, start);
    var x := id(sorted[j]);
    assert sorted[j] in multiset(g);
    MemberIff(rows, key, k, sorted[j]);
    SortedGroupNoDup(rows, key, id, start, k);
    forall j' | j < j' < |sorted| ensures id(sorted[j']) != x {
      assert sorted[j'] in multiset(g);
      MemberIff(rows, key, k, sorted[j']);
      SameIdSameRow(rows, id, sorted[j'], sorted[j]);
    }
    forall i', y | i < i' < |keys| && y in groups[keys[i']] ensures id(y) != x {
      MemberIff(rows, key, keys[i'], y);
      SameIdSameRow(rows, id, y, sorted[j]);
    }
    LabelAllLookup(map[], keys, groups, id, start, i, j);
  }

  /** With unique ids, a rider's sorted rides hold no ride twice. */
  lemma SortedGroupNoDup<T>(rows: seq<T>, key: T -> string, id: T -> string, start: T -> int, k: string)
    requires UniqueIds(rows, id)
    ensures NoDup(SortBy(Members(rows, key, k), start))
  {
    assert NoDup(rows) by {
      forall a, b | 0 <= a < b < |rows| ensures rows[a] != rows[b] {
        assert id(rows[a]) != id(rows[b]);
      }
    }
    FilterNoDup(rows, r => key(r) == k);
    NoDupPermutation(SortBy(Members(rows, key, k), start), Members(rows, key, k));
  }

  /** A row with a rider key is labelled with its position, from 1, among
      its rider's rows ordered by start; the label is never blank. */
  lemma RowLabel<T>(rows: seq<T>, key: T -> string, id: T -> string, start: T -> int, a: nat)
    requires UniqueIds(rows, id)
    requires a < |rows| && key(rows[a]) != ""
    ensures var sorted := SortBy(Members(rows, key, key(rows[a])), start);
      exists j :: 0 <= j < |sorted| && sorted[j] == rows[a]
        && id(rows[a]) in RideLabels(rows, key, id, start)
        && RideLabels(rows, key, id, start)[id(rows[a])] == Label(j + 1) && Label(j + 1) != ""
  {
    var k := key(rows[a]);
    var sorted := SortBy(Members(rows, key, k), start);
    KeysInOrderFacts(rows, key);
    assert k in KeysInOrder(rows, key);
    MemberIff(rows, key, k, rows[a]);
    assert rows[a] in multiset(sorted);
    var j :| 0 <= j < |sorted| && sorted[j] == rows[a];
    RideLabelOf(rows, key, id, start, k, j);
    assert Label(j + 1)[0] == 'E';
  }

  /** Every row with a rider key has its id labelled. */
  lemma KeyedRowLabelled<T>(rows: seq<T>, key: T -> string, id: T -> string, start: T -> int, a: nat)
    requires a < |rows| && key(rows[a]) != ""
    ensures id(rows[a]) in RideLabels(rows, key, id, start)
  {
    var keys := KeysInOrder(rows, key);
    var groups := GroupMap(rows, key);
    KeysInOrderFacts(rows, key);
    assert key(rows[a]) in keys;
    var i :| 0 <= i < |keys| && keys[i] == key(rows[a]);
    var g := Members(rows, key, keys[i]);
    MemberIff(rows, key, keys[i], rows[a]);
    var j :| 0 <= j < |g| && g[j] == rows[a];
    assert HasId(groups[keys[i]], id, id(rows[a]));
    LabelAllDomain(map[], keys, groups, id, start, id(rows[a]));
  }

  /** Every labelled id is the id of a row with a rider key. */
  lemma LabelledRowKeyed<T>(rows: seq<T>, key: T -> string, id: T -> string, start: T -> int, x: string)
    requires x in RideLabels(rows, key, id, start)
    ensures exists a :: 0 <= a < |rows| && key(rows[a]) != "" && id(rows[a]) == x
  {
    var keys := KeysInOrder(rows, key);
    var groups := GroupMap(rows, key);
    LabelAllDomain(map[], keys, groups, id, start, x);
    var i :| 0 <= i < |keys| && HasId(groups[keys[i]], id, x);
    var g := Members(rows, key, keys[i]);
    var j :| 0 <= j < |g| && id(g[j]) == x;
    MemberIff(rows, key, keys[i], g[j]);
    var a :| 0 <= a < |rows| && rows[a] == g[j];
    KeysNonBlank(rows, key);
  }

  /** Exactly the ids of rows with a rider key are labelled. */
  lemma RideLabelsDomain<T>(rows: seq<T>, key: T -> string, id: T -> string, start: T -> int, x: string)
    ensures x in RideLabels(rows, key, id, start) <==> exists a :: 0 <= a < |rows| && key(rows[a]) != "" && id(rows[a]) == x
  {
    if x in RideLabels(rows, key, id, start) {
      LabelledRowKeyed(rows, key, id, start, x);
    }
    if exists a :: 0 <= a < |rows| && key(rows[a]) != "" && id(rows[a]) == x {
      var a :| 0 <= a < |rows| && key(rows[a]) != "" && id(rows[a]) == x;
      KeyedRowLabelled(rows, key, id, start, a);
    }
  }

  /** The ride labelled `EVR-NR_1` is the rider's earliest. */
  lemma FirstRideEarliest<T>(rows: seq<T>, key: T -> string, start: T -> int, k: string, y: T)
    requires y in rows && key(y) == k
    ensures SortBy(Members(rows, key, k), start) != []
    ensures start(SortBy(Members(rows, key, k), start)[0]) <= start(y)
  {
    MemberIff(rows, key, k, y);
    HeadIsLeast(Members(rows, key, k), start, y);
  }
}
