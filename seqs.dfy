/**
 * Sequence helpers standing for `Array.prototype.filter`, toggling a value in
 * a selection list and summing a column.
 */
module Seqs {

  /** `Array.prototype.filter`. */
  function Filter<T>(s: seq<T>, f: T -> bool): (r: seq<T>)
    ensures |r| <= |s|
    ensures forall i :: 0 <= i < |r| ==> r[i] in s && f(r[i])
    ensures forall i :: 0 <= i < |s| && f(s[i]) ==> s[i] in r
  {
    if s == [] then []
    else (if f(s[0]) then [s[0]] else []) + Filter(s[1..], f)
  }

  lemma {:induction false} FilterConcat<T>(a: seq<T>, b: seq<T>, f: T -> bool)
    ensures Filter(a + b, f) == Filter(a, f) + Filter(b, f)
  {
    if a != [] {
      var h: seq<T> := if f(a[0]) then [a[0]] else [];
      calc {
        Filter(a + b, f);
        { assert (a + b)[0] == a[0]; assert (a + b)[1..] == a[1..] + b; }
        h + Filter(a[1..] + b, f);
        { FilterConcat(a[1..], b, f); }
        h + (Filter(a[1..], f) + Filter(b, f));
        Filter(a, f) + Filter(b, f);
      }
    } else {
      assert a + b == b;
    }
  }

  /** Filtering keeps every element that passes, so a filter that passes
      everything is the identity. */
  lemma {:induction false} FilterAll<T>(s: seq<T>, f: T -> bool)
    requires forall i :: 0 <= i < |s| ==> f(s[i])
    ensures Filter(s, f) == s
  {
    if s != [] {
      FilterAll(s[1..], f);
    }
  }

  /** `a` is `b` with some elements dropped, order kept. */
  predicate IsSubsequence<T(==)>(a: seq<T>, b: seq<T>)
    decreases |b|
  {
    if b == [] then a == []
    else (a != [] && a[0] == b[0] && IsSubsequence(a[1..], b[1..])) || IsSubsequence(a, b[1..])
  }

  lemma {:induction false} FilterIsSubsequence<T>(s: seq<T>, f: T -> bool)
    ensures IsSubsequence(Filter(s, f), s)
  {
    if s != [] {
      FilterIsSubsequence(s[1..], f);
      if f(s[0]) {
        assert Filter(s, f) == [s[0]] + Filter(s[1..], f);
        assert Filter(s, f)[1..] == Filter(s[1..], f);
      } else {
        assert Filter(s, f) == Filter(s[1..], f);
      }
    }
  }

  /** Appending one element to both sides, or to the longer side only,
      keeps a subsequence a subsequence. */
  lemma {:induction false} SubsequenceSnoc<T>(a: seq<T>, b: seq<T>, x: T)
    requires IsSubsequence(a, b)
    ensures IsSubsequence(a + [x], b + [x])
    ensures IsSubsequence(a, b + [x])
    decreases |b|
  {
    if b == [] {
      assert a == [];
      assert (a + [x])[1..] == [];
      assert (b + [x])[1..] == [];
    } else {
      assert (b + [x])[0] == b[0];
      assert (b + [x])[1..] == b[1..] + [x];
      if a != [] && a[0] == b[0] && IsSubsequence(a[1..], b[1..]) {
        SubsequenceSnoc(a[1..], b[1..], x);
        assert (a + [x])[0] == a[0];
        assert (a + [x])[1..] == a[1..] + [x];
      } else {
        SubsequenceSnoc(a, b[1..], x);
      }
    }
  }

  /** Everything in a subsequence is in the sequence. */
  lemma {:induction false} SubsequenceMember<T>(a: seq<T>, b: seq<T>, x: T)
    requires IsSubsequence(a, b) && x in a
    ensures x in b
    decreases |b|
  {
    if a[0] == b[0] && IsSubsequence(a[1..], b[1..]) {
      if x != a[0] {
        SubsequenceMember(a[1..], b[1..], x);
      }
    } else {
      SubsequenceMember(a, b[1..], x);
    }
  }

  /** No value occurs twice. */
  predicate NoDup<T(==)>(s: seq<T>) {
    forall i, j :: 0 <= i < j < |s| ==> s[i] != s[j]
  }

  lemma FilterNoDup<T>(s: seq<T>, f: T -> bool)
    requires NoDup(s)
    ensures NoDup(Filter(s, f))
  {
    FilterNoDupFrom(s, f);
  }

  lemma {:induction false} FilterNoDupFrom<T>(s: seq<T>, f: T -> bool)
    requires NoDup(s)
    ensures NoDup(Filter(s, f))
  {
    if s != [] {
      FilterNoDupFrom(s[1..], f);
      assert s[0] !in s[1..];
    }
  }

  /** Toggling `x` in a selection list: drop it when it is there, append it
      otherwise (`prev.includes(x) ? prev.filter(y => y !== x) : [...prev, x]`). */
  function Toggle<T(==)>(s: seq<T>, x: T): seq<T> {
    if x in s then Filter(s, y => y != x) else s + [x]
  }

  /** After a toggle, `x` is selected exactly when it was not, and every other
      value is selected exactly when it was. */
  lemma ToggleMembership<T>(s: seq<T>, x: T)
    ensures x in Toggle(s, x) <==> x !in s
    ensures forall y :: y != x ==> (y in Toggle(s, x) <==> y in s)
  {
  }

  /** Toggling keeps a list free of duplicates. */
  lemma ToggleNoDup<T>(s: seq<T>, x: T)
    requires NoDup(s)
    ensures NoDup(Toggle(s, x))
  {
    if x in s {
      FilterNoDup(s, y => y != x);
    }
  }

  /** Toggling a value that is not selected, then toggling it again, gives
      the list back. */
  lemma ToggleTwiceAbsent<T>(s: seq<T>, x: T)
    requires x !in s
    ensures Toggle(Toggle(s, x), x) == s
  {
    FilterConcat(s, [x], y => y != x);
    FilterAll(s, y => y != x);
  }

  /** Toggling a selected value twice drops every copy of it and selects it
      once more, at the end. */
  lemma ToggleTwicePresent<T>(s: seq<T>, x: T)
    requires x in s
    ensures Toggle(Toggle(s, x), x) == Filter(s, y => y != x) + [x]
  {
    assert x !in Filter(s, y => y != x);
  }

  /** Sum of `f` over a list: `rows.reduce((acc, r) => acc + f(r), 0)`. */
  function SumBy<T>(s: seq<T>, f: T -> int): int {
    if s == [] then 0 else f(s[0]) + SumBy(s[1..], f)
  }

  lemma {:induction false} SumByConcat<T>(a: seq<T>, b: seq<T>, f: T -> int)
    ensures SumBy(a + b, f) == SumBy(a, f) + SumBy(b, f)
  {
    if a != [] {
      calc {
        SumBy(a + b, f);
        { assert (a + b)[0] == a[0]; assert (a + b)[1..] == a[1..] + b; }
        f(a[0]) + SumBy(a[1..] + b, f);
        { SumByConcat(a[1..], b, f); }
        SumBy(a, f) + SumBy(b, f);
      }
    } else {
      assert a + b == b;
    }
  }

  /** A sum does not depend on the order of the rows. */
  lemma {:induction false} SumByPermutation<T>(a: seq<T>, b: seq<T>, f: T -> int)
    requires multiset(a) == multiset(b)
    ensures SumBy(a, f) == SumBy(b, f)
    decreases |a|
  {
    if a != [] {
      var x := a[0];
      assert x in multiset(b);
      var i :| 0 <= i < |b| && b[i] == x;
      var rest := b[..i] + b[i + 1..];
      assert b == b[..i] + [x] + b[i + 1..];
      assert a == [x] + a[1..];
      assert multiset(b) == multiset(b[..i]) + multiset{x} + multiset(b[i + 1..]);
      assert multiset(a) == multiset{x} + multiset(a[1..]);
      assert multiset(rest) == multiset(b[..i]) + multiset(b[i + 1..]);
      forall y ensures multiset(a[1..])[y] == multiset(rest)[y] {
        assert multiset(a)[y] == multiset{x}[y] + multiset(a[1..])[y];
      }
      assert multiset(a[1..]) == multiset(rest);
      SumByPermutation(a[1..], rest, f);
      SumByConcat(b[..i] + [x], b[i + 1..], f);
      SumByConcat(b[..i], [x], f);
      SumByConcat(b[..i], b[i + 1..], f);
    } else {
      assert |b| == |multiset(b)|;
    }
  }

  /** Number of rows satisfying `p`. */
  function CountBy<T>(s: seq<T>, p: T -> bool): nat {
    |Filter(s, p)|
  }

  /** A count is a sum of ones and zeros, so it is order-independent too. */
  lemma {:induction false} CountIsSum<T>(s: seq<T>, p: T -> bool)
    ensures CountBy(s, p) == SumBy(s, x => if p(x) then 1 else 0)
  {
    if s != [] {
      CountIsSum(s[1..], p);
    }
  }

  /** Adding to an insertion-ordered set (a JavaScript `Set`): `x` is
      appended unless it is already there. */
  function AddNew<T(==)>(s: seq<T>, x: T): seq<T> {
    if x in s then s else s + [x]
  }

  /** Adding every element of `xs`, in order. */
  function AddAll<T(==)>(s: seq<T>, xs: seq<T>): seq<T>
    decreases |xs|
  {
    if xs == [] then s else AddNew(AddAll(s, xs[..|xs| - 1]), xs[|xs| - 1])
  }

  /** An ordered set stays duplicate-free, keeps its old elements in front,
      and gains exactly the added elements. */
  lemma {:induction false} AddAllFacts<T>(s: seq<T>, xs: seq<T>)
    requires NoDup(s)
    ensures NoDup(AddAll(s, xs))
    ensures |s| <= |AddAll(s, xs)| && AddAll(s, xs)[..|s|] == s
    ensures forall y :: y in AddAll(s, xs) <==> y in s || y in xs
    decreases |xs|
  {
    if xs != [] {
      var init := xs[..|xs| - 1];
      AddAllFacts(s, init);
      assert xs == init + [xs[|xs| - 1]];
    }
  }

  /** The elements of an ordered set after adding `xs`. */
  lemma {:induction false} AddAllMember<T>(s: seq<T>, xs: seq<T>)
    ensures forall y :: y in AddAll(s, xs) <==> y in s || y in xs
    decreases |xs|
  {
    if xs != [] {
      AddAllMember(s, xs[..|xs| - 1]);
      assert xs == xs[..|xs| - 1] + [xs[|xs| - 1]];
    }
  }

  /** Adding one more element at the end. */
  lemma AddAllSnoc<T>(s: seq<T>, xs: seq<T>, x: T)
    ensures AddAll(s, xs + [x]) == AddNew(AddAll(s, xs), x)
  {
    assert (xs + [x])[..|xs|] == xs;
  }

  /** Deleting `x` from an ordered set (`set.delete(x)`). */
  function Without<T(==)>(s: seq<T>, x: T): seq<T> {
    Filter(s, y => y != x)
  }

  /** Deleting every element of `xs` from an ordered set, in order
      (`xs.forEach(x => set.delete(x))`). */
  function RemoveAll<T(==)>(s: seq<T>, xs: seq<T>): seq<T>
    decreases |xs|
  {
    if xs == [] then s else Without(RemoveAll(s, xs[..|xs| - 1]), xs[|xs| - 1])
  }

  /** Deleting keeps a set duplicate-free and removes exactly the deleted
      elements. */
  lemma {:induction false} RemoveAllFacts<T>(s: seq<T>, xs: seq<T>)
    ensures forall y :: y in RemoveAll(s, xs) <==> y in s && y !in xs
    ensures NoDup(s) ==> NoDup(RemoveAll(s, xs))
    decreases |xs|
  {
    if xs != [] {
      var init := xs[..|xs| - 1];
      RemoveAllFacts(s, init);
      assert xs == init + [xs[|xs| - 1]];
      if NoDup(s) {
        FilterNoDup(RemoveAll(s, init), y => y != xs[|xs| - 1]);
        assert Without(RemoveAll(s, init), xs[|xs| - 1]) == Filter(RemoveAll(s, init), y => y != xs[|xs| - 1]);
      }
    }
  }

  lemma RemoveAllSnoc<T>(s: seq<T>, xs: seq<T>, x: T)
    ensures RemoveAll(s, xs + [x]) == Without(RemoveAll(s, xs), x)
  {
    assert (xs + [x])[..|xs|] == xs;
  }

  /** Every element satisfies `p` exactly when all of them are counted. */
  lemma {:induction false} CountAll<T>(s: seq<T>, p: T -> bool)
    ensures CountBy(s, p) == |s| <==> forall i :: 0 <= i < |s| ==> p(s[i])
  {
    if s != [] {
      CountAll(s[1..], p);
      assert CountBy(s, p) == (if p(s[0]) then 1 else 0) + CountBy(s[1..], p);
      if forall i :: 0 <= i < |s| ==> p(s[i]) {
        assert forall i :: 0 <= i < |s[1..]| ==> p(s[1..][i]) by {
          forall i | 0 <= i < |s[1..]| ensures p(s[1..][i]) {
            assert s[1..][i] == s[i + 1];
          }
        }
      }
      if CountBy(s, p) == |s| {
        assert CountBy(s[1..], p) <= |s| - 1;
        forall i | 0 <= i < |s| ensures p(s[i]) {
          if i > 0 {
            assert s[i] == s[1..][i - 1];
          }
        }
      }
    }
  }

  /** Some element satisfies `p` exactly when the count is positive. */
  lemma CountSome<T>(s: seq<T>, p: T -> bool)
    ensures CountBy(s, p) > 0 <==> exists i :: 0 <= i < |s| && p(s[i])
  {
    if CountBy(s, p) > 0 {
      var r := Filter(s, p);
      assert r[0] in s && p(r[0]);
    }
  }

  /** `xs.forEach(x => set.add(x))` on an ordered set. */
  method AddEach<T(==)>(s: seq<T>, xs: seq<T>) returns (r: seq<T>)
    ensures r == AddAll(s, xs)
  {
    r := s;
    for i := 0 to |xs|
      invariant r == AddAll(s, xs[..i])
    {
      AddAllSnoc(s, xs[..i], xs[i]);
      assert xs[..i + 1] == xs[..i] + [xs[i]];
      if xs[i] !in r {
        r := r + [xs[i]];
      }
    }
    assert xs[..|xs|] == xs;
  }

  /** `xs.forEach(x => set.delete(x))` on an ordered set. */
  method DeleteEach<T(==)>(s: seq<T>, xs: seq<T>) returns (r: seq<T>)
    ensures r == RemoveAll(s, xs)
  {
    r := s;
    for i := 0 to |xs|
      invariant r == RemoveAll(s, xs[..i])
    {
      RemoveAllSnoc(s, xs[..i], xs[i]);
      assert xs[..i + 1] == xs[..i] + [xs[i]];
      r := Without(r, xs[i]);
    }
    assert xs[..|xs|] == xs;
  }

  /** A list without duplicates holds each value at most once. */
  lemma {:induction false} NoDupCount<T>(s: seq<T>, x: T)
    requires NoDup(s)
    ensures multiset(s)[x] <= 1
  {
    if s != [] {
      assert s == [s[0]] + s[1..];
      assert NoDup(s[1..]) by {
        forall i, j | 0 <= i < j < |s[1..]| ensures s[1..][i] != s[1..][j] {
          assert s[1..][i] == s[i + 1] && s[1..][j] == s[j + 1];
        }
      }
      NoDupCount(s[1..], x);
      if s[0] == x {
        assert x !in s[1..];
      }
    }
  }

  /** A value at two positions is counted at least twice. */
  lemma CountTwo<T>(s: seq<T>, i: nat, j: nat)
    requires i < j < |s|
    ensures s[i] == s[j] ==> multiset(s)[s[i]] >= 2
  {
    assert s == s[..i] + [s[i]] + s[i + 1..j] + [s[j]] + s[j + 1..];
  }

  /** A reordering of a list without duplicates has none either. */
  lemma NoDupPermutation<T>(a: seq<T>, b: seq<T>)
    requires multiset(a) == multiset(b) && NoDup(b)
    ensures NoDup(a)
  {
    forall i, j | 0 <= i < j < |a| ensures a[i] != a[j] {
      CountTwo(a, i, j);
      NoDupCount(b, a[i]);
    }
  }

  /** Every element is counted by exactly one of two opposite tests. */
  lemma {:induction false} CountComplement<T>(s: seq<T>, p: T -> bool, q: T -> bool)
    requires forall x :: q(x) == !p(x)
    ensures CountBy(s, p) + CountBy(s, q) == |s|
  {
    if s != [] {
      CountComplement(s[1..], p, q);
    }
  }
}
