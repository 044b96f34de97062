/**
 * Grouping rows by a string key the way the tables do it: a `Map` filled in
 * a `forEach`, skipping rows whose key is blank, creating a list the first
 * time a key is seen and pushing every later row onto it. A JavaScript `Map`
 * remembers insertion order, so the model keeps the key order beside the map.
 */
module Grouping {
  import opened Seqs

  /** Distinct non-blank keys in order of first appearance. */
  function KeysInOrder<T>(rows: seq<T>, key: T -> string): seq<string>
    decreases |rows|
  {
    if rows == [] then []
    else
      var ks := KeysInOrder(rows[..|rows| - 1], key);
      var k := key(rows[|rows| - 1]);
      if k == "" || k in ks then ks else ks + [k]
  }

  /** The rows with key `k`, in input order. */
  function Members<T>(rows: seq<T>, key: T -> string, k: string): seq<T> {
    Filter(rows, r => key(r) == k)
  }

  lemma MembersSnoc<T>(rows: seq<T>, x: T, key: T -> string, k: string)
    ensures Members(rows + [x], key, k) == Members(rows, key, k) + (if key(x) == k then [x] else [])
  {
    FilterConcat(rows, [x], r => key(r) == k);
    assert Filter([x], r => key(r) == k) == (if key(x) == k then [x] else []) + Filter([], r => key(r) == k);
  }

  /** A key is listed exactly when it is non-blank and some row carries it,
      and no key is listed twice. */
  lemma {:induction false} KeysInOrderFacts<T>(rows: seq<T>, key: T -> string)
    ensures NoDup(KeysInOrder(rows, key))
    ensures forall k :: k in KeysInOrder(rows, key) <==> k != "" && exists i :: 0 <= i < |rows| && key(rows[i]) == k
    decreases |rows|
  {
    if rows != [] {
      var p := rows[..|rows| - 1];
      KeysInOrderFacts(p, key);
      forall k
        ensures k in KeysInOrder(rows, key) <==> k != "" && exists i :: 0 <= i < |rows| && key(rows[i]) == k
      {
        if k in KeysInOrder(p, key) {
          var i :| 0 <= i < |p| && key(p[i]) == k;
          assert rows[i] == p[i];
        }
        if k != "" && exists i :: 0 <= i < |rows| && key(rows[i]) == k {
          var i :| 0 <= i < |rows| && key(rows[i]) == k;
          if i < |p| {
            assert p[i] == rows[i];
          }
        }
      }
    }
  }

  lemma {:induction false} KeysNonBlank<T>(rows: seq<T>, key: T -> string)
    ensures "" !in KeysInOrder(rows, key)
    decreases |rows|
  {
    if rows != [] {
      KeysNonBlank(rows[..|rows| - 1], key);
    }
  }

  /** A non-blank key that is not listed has no rows. */
  lemma UnlistedKeyHasNoMembers<T>(rows: seq<T>, key: T -> string, k: string)
    requires k != "" && k !in KeysInOrder(rows, key)
    ensures Members(rows, key, k) == []
  {
    KeysInOrderFacts(rows, key);
    NoRowsNoMembers(rows, key, k);
  }

  lemma {:induction false} NoRowsNoMembers<T>(rows: seq<T>, key: T -> string, k: string)
    requires forall i :: 0 <= i < |rows| ==> key(rows[i]) != k
    ensures Members(rows, key, k) == []
  {
    if rows != [] {
      NoRowsNoMembers(rows[1..], key, k);
    }
  }

  /** A row lies in group `k` exactly when its key is `k`. */
  lemma MemberIff<T>(rows: seq<T>, key: T -> string, k: string, x: T)
    ensures x in Members(rows, key, k) <==> x in rows && key(x) == k
  {
    var m := Members(rows, key, k);
    if x in m {
      var i :| 0 <= i < |m| && m[i] == x;
    }
    if x in rows && key(x) == k {
      var i :| 0 <= i < |rows| && rows[i] == x;
    }
  }

  /** The finished map: each listed key to its rows. */
  function GroupMap<T>(rows: seq<T>, key: T -> string): map<string, seq<T>> {
    map k | k in KeysInOrder(rows, key) :: Members(rows, key, k)
  }

  /** One `forEach` step: a blank key changes nothing, otherwise the row is
      pushed onto its key's list, which is created empty the first time. */
  lemma GroupMapSnoc<T>(p: seq<T>, x: T, key: T -> string)
    ensures KeysInOrder(p + [x], key) ==
      if key(x) == "" || key(x) in KeysInOrder(p, key) then KeysInOrder(p, key) else KeysInOrder(p, key) + [key(x)]
    ensures GroupMap(p + [x], key) ==
      if key(x) == "" then GroupMap(p, key)
      else GroupMap(p, key)[key(x) := (if key(x) in GroupMap(p, key) then GroupMap(p, key)[key(x)] else []) + [x]]
  {
    var rows := p + [x];
    assert rows[..|rows| - 1] == p;
    var m := GroupMap(rows, key);
    var m0 := GroupMap(p, key);
    var kx := key(x);
    var m1 := if kx == "" then m0 else m0[kx := (if kx in m0 then m0[kx] else []) + [x]];
    KeysNonBlank(p, key);
    assert m.Keys == m1.Keys;
    forall k | k in m
      ensures m[k] == m1[k]
    {
      assert m[k] == Members(rows, key, k);
      MembersSnoc(p, x, key, k);
      if k == kx {
        assert kx != "";
        if kx !in m0 {
          UnlistedKeyHasNoMembers(p, key, k);
          assert m1[k] == [x];
          assert m[k] == m1[k];
        } else {
          assert m0[kx] == Members(p, key, kx);
          assert m[k] == m1[k];
        }
      } else {
        assert k in m0;
        assert m1[k] == m0[k] == Members(p, key, k);
        assert m[k] == m1[k];
      }
    }
  }

  /** The `forEach` that fills the map: returns the keys in insertion order
      and, for each key, its rows in input order. */
  method GroupBy<T>(rows: seq<T>, key: T -> string) returns (keys: seq<string>, groups: map<string, seq<T>>)
    ensures keys == KeysInOrder(rows, key)
    ensures groups == GroupMap(rows, key)
  {
    keys := [];
    groups := map[];
    var i := 0;
    while i < |rows|
      invariant 0 <= i <= |rows|
      invariant keys == KeysInOrder(rows[..i], key)
      invariant groups == GroupMap(rows[..i], key)
    {
      var r := rows[i];
      var k := key(r);
      assert rows[..i + 1] == rows[..i] + [r];
      GroupMapSnoc(rows[..i], r, key);
      if k != "" {
        if k !in groups {
          assert [] + [r] == [r];
          keys := keys + [k];
          groups := groups[k := [r]];
        } else {
          groups := groups[k := groups[k] + [r]];
        }
      }
      i := i + 1;
    }
    assert rows[..i] == rows;
  }

  /** What the map holds: exactly the non-blank keys, none listed twice, each
      with a non-empty list of exactly the rows carrying it. */
  lemma GroupMapFacts<T>(rows: seq<T>, key: T -> string)
    ensures NoDup(KeysInOrder(rows, key))
    ensures forall k :: k in GroupMap(rows, key) <==> k in KeysInOrder(rows, key)
    ensures forall k :: k in GroupMap(rows, key) <==> k != "" && exists i :: 0 <= i < |rows| && key(rows[i]) == k
    ensures forall k :: k in GroupMap(rows, key) ==> GroupMap(rows, key)[k] != []
    ensures forall k, x :: k in GroupMap(rows, key) ==> (x in GroupMap(rows, key)[k] <==> x in rows && key(x) == k)
  {
    KeysInOrderFacts(rows, key);
    forall k | k in GroupMap(rows, key)
      ensures GroupMap(rows, key)[k] != []
    {
      var i :| 0 <= i < |rows| && key(rows[i]) == k;
      MemberIff(rows, key, k, rows[i]);
    }
    forall k, x | k in GroupMap(rows, key)
      ensures x in GroupMap(rows, key)[k] <==> x in rows && key(x) == k
    {
      MemberIff(rows, key, k, x);
    }
  }

  /** Every listed key has a non-empty list. */
  lemma GroupsNonEmpty<T>(rows: seq<T>, key: T -> string)
    ensures forall k :: k in KeysInOrder(rows, key) ==> k in GroupMap(rows, key) && GroupMap(rows, key)[k] != []
  {
    GroupMapFacts(rows, key);
  }

  /** Summing group sizes over a duplicate-free key list, after one more row:
      the row's own group grows by one if it is listed. */
  lemma {:induction false} SizesSnoc<T>(ks: seq<string>, p: seq<T>, x: T, key: T -> string)
    requires NoDup(ks)
    ensures SumBy(ks, k => |Members(p + [x], key, k)|)
         == SumBy(ks, k => |Members(p, key, k)|) + (if key(x) in ks then 1 else 0)
  {
    if ks != [] {
      SizesSnoc(ks[1..], p, x, key);
      MembersSnoc(p, x, key, ks[0]);
    }
  }

  /** The rows whose key is not blank, in input order. */
  function Keyed<T>(rows: seq<T>, key: T -> string): seq<T> {
    Filter(rows, r => key(r) != "")
  }

  /** Every keyed row is counted in exactly one group: the group sizes add
      up to the number of rows with a non-blank key. */
  lemma {:induction false} GroupSizesSum<T>(rows: seq<T>, key: T -> string)
    ensures SumBy(KeysInOrder(rows, key), k => |Members(rows, key, k)|) == |Keyed(rows, key)|
    decreases |rows|
  {
    if rows != [] {
      var p := rows[..|rows| - 1];
      var x := rows[|rows| - 1];
      var kx := key(x);
      var ks := KeysInOrder(p, key);
      assert rows == p + [x];
      GroupSizesSum(p, key);
      KeysInOrderFacts(p, key);
      SizesSnoc(ks, p, x, key);
      FilterConcat(p, [x], r => key(r) != "");
      assert Filter([x], r => key(r) != "") == (if kx != "" then [x] else []) + Filter([], r => key(r) != "");
      if kx != "" && kx !in ks {
        UnlistedKeyHasNoMembers(p, key, kx);
        MembersSnoc(p, x, key, kx);
        SumByConcat(ks, [kx], k => |Members(rows, key, k)|);
      }
    }
  }

  /** The sum of `f` over the rows of key `k`, for every `k`. */
  function GroupSum<T>(rows: seq<T>, key: T -> string, f: T -> int): string -> int {
    k => SumBy(Members(rows, key, k), f)
  }

  /** Summing group totals over a duplicate-free key list, after one more
      row: the row's own group total grows by its value if it is listed. */
  lemma {:induction false} SumsSnoc<T>(ks: seq<string>, p: seq<T>, x: T, key: T -> string, f: T -> int)
    requires NoDup(ks)
    ensures SumBy(ks, GroupSum(p + [x], key, f)) == SumBy(ks, GroupSum(p, key, f)) + (if key(x) in ks then f(x) else 0)
  {
    if ks != [] {
      SumsSnoc(ks[1..], p, x, key, f);
      MembersSnoc(p, x, key, ks[0]);
      var m := Members(p, key, ks[0]);
      if key(x) == ks[0] {
        SumByConcat(m, [x], f);
        assert [x][1..] == [];
        assert Members(p + [x], key, ks[0]) == m + [x];
      } else {
        assert Members(p + [x], key, ks[0]) == m + [];
        assert m + [] == m;
      }
      assert GroupSum(p + [x], key, f)(ks[0]) == SumBy(m, f) + (if key(x) == ks[0] then f(x) else 0);
      assert GroupSum(p, key, f)(ks[0]) == SumBy(m, f);
      assert key(x) == ks[0] ==> key(x) !in ks[1..];
      assert ks == [ks[0]] + ks[1..];
    }
  }

  /** One more row adds its value to the keyed total when its key is not blank. */
  lemma KeyedSumSnoc<T>(p: seq<T>, x: T, key: T -> string, f: T -> int)
    ensures SumBy(Keyed(p + [x], key), f) == SumBy(Keyed(p, key), f) + (if key(x) != "" then f(x) else 0)
  {
    var tail := Filter([x], r => key(r) != "");
    FilterConcat(p, [x], r => key(r) != "");
    SumByConcat(Keyed(p, key), tail, f);
    assert [x][1..] == [];
    if key(x) != "" {
      assert tail == [x];
    } else {
      assert tail == [];
    }
  }

  /** A row with a new key opens a group holding just that row. */
  lemma NewKeySum<T>(p: seq<T>, x: T, key: T -> string, f: T -> int)
    requires key(x) != "" && key(x) !in KeysInOrder(p, key)
    ensures SumBy(KeysInOrder(p, key) + [key(x)], GroupSum(p + [x], key, f))
         == SumBy(KeysInOrder(p, key), GroupSum(p + [x], key, f)) + f(x)
  {
    var kx := key(x);
    UnlistedKeyHasNoMembers(p, key, kx);
    MembersSnoc(p, x, key, kx);
    assert Members(p + [x], key, kx) == [x];
    assert [x][1..] == [];
    assert SumBy([x], f) == f(x) + SumBy([], f);
    assert GroupSum(p + [x], key, f)(kx) == f(x);
    SumByConcat(KeysInOrder(p, key), [kx], GroupSum(p + [x], key, f));
    assert [kx][1..] == [];
  }

  /** Every keyed row is summed in exactly one group: the group totals add
      up to the total over the rows with a non-blank key. */
  lemma {:induction false} GroupSumsSum<T>(rows: seq<T>, key: T -> string, f: T -> int)
    ensures SumBy(KeysInOrder(rows, key), GroupSum(rows, key, f)) == SumBy(Keyed(rows, key), f)
    decreases |rows|
  {
    if rows != [] {
      var p := rows[..|rows| - 1];
      var x := rows[|rows| - 1];
      assert rows == p + [x];
      GroupSumsSum(p, key, f);
      KeysInOrderFacts(p, key);
      SumsSnoc(KeysInOrder(p, key), p, x, key, f);
      KeyedSumSnoc(p, x, key, f);
      if key(x) != "" && key(x) !in KeysInOrder(p, key) {
        NewKeySum(p, x, key, f);
      }
    }
  }
}
