/**
 * The `[...list].sort((a, b) => key(a) - key(b))` idiom of the tables, as a
 * stable insertion sort on an integer key. Descending order sorts on the
 * negated key.
 */
module Sorting {

  predicate SortedBy<T>(s: seq<T>, key: T -> int) {
    forall i, j :: 0 <= i < j < |s| ==> key(s[i]) <= key(s[j])
  }

  predicate SortedDescBy<T>(s: seq<T>, key: T -> int) {
    forall i, j :: 0 <= i < j < |s| ==> key(s[i]) >= key(s[j])
  }

  function Insert<T>(x: T, s: seq<T>, key: T -> int): (r: seq<T>)
    requires SortedBy(s, key)
    ensures SortedBy(r, key)
    ensures multiset(r) == multiset(s) + multiset{x}
    ensures |r| == |s| + 1
    ensures r[0] == x || (s != [] && r[0] == s[0])
  {
    if s == [] || key(x) <= key(s[0]) then [x] + s
    else
      var t := Insert(x, s[1..], key);
      assert s == [s[0]] + s[1..];
      assert key(s[0]) <= key(t[0]);
      [s[0]] + t
  }

  /** Ascending order by `key`; equal keys keep their input order. */
  function SortBy<T>(s: seq<T>, key: T -> int): (r: seq<T>)
    ensures SortedBy(r, key)
    ensures multiset(r) == multiset(s)
    ensures |r| == |s|
  {
    if s == [] then []
    else
      assert s == [s[0]] + s[1..];
      Insert(s[0], SortBy(s[1..], key), key)
  }

  /** Descending order by `key`: `(a, b) => key(b) - key(a)`. */
  function SortDescBy<T>(s: seq<T>, key: T -> int): (r: seq<T>)
    ensures SortedDescBy(r, key)
    ensures multiset(r) == multiset(s)
    ensures |r| == |s|
  {
    SortBy(s, x => -key(x))
  }

  /** The head of a descending sort carries the greatest key of the input. */
  lemma HeadIsGreatest<T>(s: seq<T>, key: T -> int, x: T)
    requires x in s
    ensures SortDescBy(s, key) != []
    ensures key(SortDescBy(s, key)[0]) >= key(x)
  {
    var r := SortDescBy(s, key);
    assert x in multiset(s);
    assert x in multiset(r);
    var i :| 0 <= i < |r| && r[i] == x;
  }

  /** The head of an ascending sort carries the least key of the input. */
  lemma HeadIsLeast<T>(s: seq<T>, key: T -> int, x: T)
    requires x in s
    ensures SortBy(s, key) != []
    ensures key(SortBy(s, key)[0]) <= key(x)
  {
    var r := SortBy(s, key);
    assert x in multiset(s);
    assert x in multiset(r);
    var i :| 0 <= i < |r| && r[i] == x;
  }
}
