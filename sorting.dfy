/** The two LINQ orderings the engine uses: `OrderBy(n => n)` on a sequence
    of reals and `OrderByDescending(key)` on a sequence of records. Both are
    insertion sorts; the descending one is stable, as LINQ's sorts are. */
module Sorting {

  /** `s` is in non-decreasing order. */
  ghost predicate Ascending(s: seq<real>) {
    forall i, j :: 0 <= i < j < |s| ==> s[i] <= s[j]
  }

  /** `s` is in non-increasing order of `key`. */
  ghost predicate DescendingBy<T>(s: seq<T>, key: T -> real) {
    forall i, j :: 0 <= i < j < |s| ==> key(s[i]) >= key(s[j])
  }

  /** Inserts `x` into an ascending sequence, keeping it ascending. */
  function Insert(x: real, s: seq<real>): (r: seq<real>)
    requires Ascending(s)
    ensures Ascending(r)
    ensures multiset(r) == multiset(s) + multiset{x}
  {
    if s == [] || x <= s[0] then
      PrependAscending(x, s);
      [x] + s
    else
      assert s == [s[0]] + s[1..];
      var rest := Insert(x, s[1..]);
      HeadBelowInserted(x, s, rest);
      PrependAscending(s[0], rest);
      [s[0]] + rest
  }

  /** Putting an element no larger than the head in front of an ascending
      sequence keeps it ascending. */
  lemma PrependAscending(h: real, s: seq<real>)
    requires Ascending(s)
    requires s == [] || h <= s[0]
    ensures Ascending([h] + s)
  {
  }

  /** The head of an ascending `s` is at most every element of the
      result of inserting a larger `x` into the tail of `s`. */
  lemma HeadBelowInserted(x: real, s: seq<real>, rest: seq<real>)
    requires Ascending(s) && |s| > 0 && s[0] < x
    requires multiset(rest) == multiset(s[1..]) + multiset{x}
    ensures forall k :: 0 <= k < |rest| ==> s[0] <= rest[k]
  {
    forall k | 0 <= k < |rest| ensures s[0] <= rest[k] {
      assert rest[k] in multiset(rest);
      if rest[k] != x {
        assert rest[k] in s[1..];
        var m :| 0 <= m < |s| - 1 && s[1..][m] == rest[k];
        assert s[m + 1] == rest[k];
      }
    }
  }

  /** LINQ `OrderBy(n => n)`: the elements of `s` in ascending order. */
  function OrderBy(s: seq<real>): (r: seq<real>)
    ensures Ascending(r)
    ensures multiset(r) == multiset(s)
  {
    if s == [] then []
    else
      assert s == [s[0]] + s[1..];
      Insert(s[0], OrderBy(s[1..]))
  }

  /** Two non-empty ascending sequences with the same elements start with
      the same element: their common minimum. */
  lemma AscendingSameHead(a: seq<real>, b: seq<real>)
    requires Ascending(a) && Ascending(b)
    requires multiset(a) == multiset(b)
    requires a != [] && b != []
    ensures a[0] == b[0]
  {
    assert a[0] in multiset(a) && b[0] in multiset(b);
    var i :| 0 <= i < |b| && b[i] == a[0];
    var j :| 0 <= j < |a| && a[j] == b[0];
    assert b[0] <= b[i] && a[0] <= a[j];
  }

  /** Two ascending sequences with the same elements are equal: the
      ascending order of a multiset of reals is unique. */
  lemma {:induction false} AscendingUnique(a: seq<real>, b: seq<real>)
    requires Ascending(a) && Ascending(b)
    requires multiset(a) == multiset(b)
    ensures a == b
  {
    assert |b| == |a| by { assert |multiset(a)| == |multiset(b)|; }
    if a != [] {
      AscendingSameHead(a, b);
      AscendingTail(a);
      AscendingTail(b);
      AscendingUnique(a[1..], b[1..]);
    }
  }

  /** The tail of a non-empty ascending sequence is ascending and holds the
      remaining elements. */
  lemma AscendingTail(a: seq<real>)
    requires Ascending(a) && a != []
    ensures Ascending(a[1..])
    ensures multiset(a[1..]) == multiset(a) - multiset{a[0]}
  {
    assert a == [a[0]] + a[1..];
    assert multiset(a) == multiset{a[0]} + multiset(a[1..]);
  }

  /** Sorting a sequence that is already ascending returns it unchanged. */
  lemma OrderByOfAscending(s: seq<real>)
    requires Ascending(s)
    ensures OrderBy(s) == s
  {
    AscendingUnique(OrderBy(s), s);
  }

  /** The sorted order depends only on which elements there are. */
  lemma OrderByPermutation(a: seq<real>, b: seq<real>)
    requires multiset(a) == multiset(b)
    ensures OrderBy(a) == OrderBy(b)
  {
    AscendingUnique(OrderBy(a), OrderBy(b));
  }

  /** Inserts `x` ahead of every element whose key is not greater than its
      own, so that `x` stays before the elements it ties with. */
  function InsertDescending<T>(x: T, s: seq<T>, key: T -> real): (r: seq<T>)
    requires DescendingBy(s, key)
    ensures DescendingBy(r, key)
    ensures multiset(r) == multiset(s) + multiset{x}
  {
    if s == [] || key(x) >= key(s[0]) then
      PrependDescending(x, s, key);
      [x] + s
    else
      assert s == [s[0]] + s[1..];
      var rest := InsertDescending(x, s[1..], key);
      HeadAboveInserted(x, s, rest, key);
      PrependDescending(s[0], rest, key);
      [s[0]] + rest
  }

  /** Putting an element whose key is at least the head's in front of a
      `key`-descending sequence keeps it descending. */
  lemma PrependDescending<T>(h: T, s: seq<T>, key: T -> real)
    requires DescendingBy(s, key)
    requires s == [] || key(h) >= key(s[0])
    ensures DescendingBy([h] + s, key)
  {
  }

  /** The head of a `key`-descending `s` has a key at least that of every
      element of the result of inserting a lower-keyed `x` into the tail. */
  lemma HeadAboveInserted<T>(x: T, s: seq<T>, rest: seq<T>, key: T -> real)
    requires DescendingBy(s, key) && |s| > 0 && key(x) < key(s[0])
    requires multiset(rest) == multiset(s[1..]) + multiset{x}
    ensures forall k :: 0 <= k < |rest| ==> key(s[0]) >= key(rest[k])
  {
    forall k | 0 <= k < |rest| ensures key(s[0]) >= key(rest[k]) {
      assert rest[k] in multiset(rest);
      if rest[k] != x {
        assert rest[k] in s[1..];
        var m :| 0 <= m < |s| - 1 && s[1..][m] == rest[k];
        assert s[m + 1] == rest[k];
      }
    }
  }

  /** LINQ `OrderByDescending(key)`: the elements of `s` by non-increasing key. */
  function OrderByDescending<T>(s: seq<T>, key: T -> real): (r: seq<T>)
    ensures DescendingBy(r, key)
    ensures multiset(r) == multiset(s)
  {
    if s == [] then []
    else
      assert s == [s[0]] + s[1..];
      InsertDescending(s[0], OrderByDescending(s[1..], key), key)
  }

  /** In a `key`-descending sequence every element before position `n` has
      a key at least that of the element at any position `m >= n`. */
  lemma PrefixDominates<T>(s: seq<T>, key: T -> real, n: nat, m: nat)
    requires DescendingBy(s, key)
    requires n <= m < |s|
    ensures forall x :: x in s[..n] ==> key(x) >= key(s[m])
  {
    forall x | x in s[..n] ensures key(x) >= key(s[m]) {
      var i :| 0 <= i < n && s[..n][i] == x;
      assert s[i] == x;
    }
  }

  /** In a `key`-descending sequence, an element that is not among the
      first `n` has a key no higher than any of them. */
  lemma OutsidePrefixDominated<T>(s: seq<T>, key: T -> real, n: nat, x: T)
    requires DescendingBy(s, key)
    requires n <= |s| && x in s && x !in s[..n]
    ensures forall y :: y in s[..n] ==> key(y) >= key(x)
  {
    var m :| 0 <= m < |s| && s[m] == x;
    assert m >= n by {
      assert forall i :: 0 <= i < n ==> s[..n][i] != x;
    }
    PrefixDominates(s, key, n, m);
  }

  /** Every element of the sorted sequence comes from the input. */
  lemma SortedMember<T>(s: seq<T>, key: T -> real, x: T)
    requires x in OrderByDescending(s, key)
    ensures x in s
  {
    assert x in multiset(OrderByDescending(s, key));
  }
}
