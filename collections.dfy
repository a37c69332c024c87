/** Small facts about sequences without repeated elements. */
module Collections {

  /** No element of `s` occurs twice. */
  ghost predicate Distinct<T>(s: seq<T>) {
    forall i, j :: 0 <= i < j < |s| ==> s[i] != s[j]
  }

  /** A sequence without repetitions has as many elements as its set. */
  lemma {:induction false} DistinctCardinality<T>(s: seq<T>)
    requires Distinct(s)
    ensures |set x | x in s| == |s|
  {
    if |s| > 0 {
      var init := s[..|s| - 1];
      var last := s[|s| - 1];
      assert Distinct(init);
      DistinctCardinality(init);
      assert last !in init;
      assert s == init + [last];
      assert (set x | x in s) == (set x | x in init) + {last};
    }
  }

  /** Two different positions holding the same element make it occur at
      least twice. */
  lemma CountOfRepeated<T>(s: seq<T>, i: nat, j: nat)
    requires i < j < |s| && s[i] == s[j]
    ensures multiset(s)[s[i]] >= 2
  {
    assert s == s[..i] + [s[i]] + s[i + 1..j] + [s[j]] + s[j + 1..];
    assert multiset(s) == multiset(s[..i]) + multiset{s[i]} + multiset(s[i + 1..j])
      + multiset{s[j]} + multiset(s[j + 1..]);
  }

  /** In a sequence without repetitions every element occurs at most once. */
  lemma {:induction false} CountInDistinct<T>(s: seq<T>, x: T)
    requires Distinct(s)
    ensures multiset(s)[x] <= 1
  {
    if |s| > 0 {
      var init := s[..|s| - 1];
      assert s == init + [s[|s| - 1]];
      assert Distinct(init);
      CountInDistinct(init, x);
      if x == s[|s| - 1] {
        assert x !in init;
      }
    }
  }

  /** Rearranging a sequence without repetitions gives one without repetitions. */
  lemma DistinctPermutation<T>(a: seq<T>, b: seq<T>)
    requires Distinct(a)
    requires multiset(a) == multiset(b)
    ensures Distinct(b)
  {
    forall i, j | 0 <= i < j < |b| ensures b[i] != b[j] {
      if b[i] == b[j] {
        CountOfRepeated(b, i, j);
        CountInDistinct(a, b[i]);
        assert false;
      }
    }
  }

  /** Removing the element at `i` removes one occurrence of it from the multiset. */
  lemma MultisetRemove<T>(s: seq<T>, i: nat)
    requires i < |s|
    ensures multiset(s[..i] + s[i + 1..]) == multiset(s) - multiset{s[i]}
  {
    assert s == s[..i] + [s[i]] + s[i + 1..];
  }

  /** Removing position `i` from a sequence and from its projection leaves
      the projection of what remains, and takes `f(s[i])` off the multiset of
      projected values. */
  lemma ProjectionRemove<A, B>(s: seq<A>, rs: seq<B>, f: A -> B, i: nat)
    requires |rs| == |s| && forall k :: 0 <= k < |s| ==> rs[k] == f(s[k])
    requires i < |s|
    ensures Projects(s[..i] + s[i + 1..], rs[..i] + rs[i + 1..], f)
    ensures multiset(rs) == multiset(rs[..i] + rs[i + 1..]) + multiset{f(s[i])}
  {
    var s0, rs0 := s[..i] + s[i + 1..], rs[..i] + rs[i + 1..];
    forall k | 0 <= k < |s0| ensures rs0[k] == f(s0[k]) {
      if k < i {
        assert rs0[k] == rs[k] && s0[k] == s[k];
      } else {
        assert rs0[k] == rs[k + 1] && s0[k] == s[k + 1];
      }
    }
    MultisetRemove(rs, i);
  }

  /** `rs` is `s` projected element by element through `f`. */
  ghost predicate Projects<A, B>(s: seq<A>, rs: seq<B>, f: A -> B) {
    |rs| == |s| && forall k :: 0 <= k < |s| ==> rs[k] == f(s[k])
  }

  /** Projecting two rearrangements of the same elements through the same
      `f` gives two rearrangements of the same values. `ra` and `rb` are the
      projections of `a` and `b`. */
  lemma {:induction false} ProjectionPermutation<A, B>(a: seq<A>, b: seq<A>, ra: seq<B>, rb: seq<B>, f: A -> B)
    requires multiset(a) == multiset(b)
    requires Projects(a, ra, f) && Projects(b, rb, f)
    ensures multiset(ra) == multiset(rb)
    decreases |a|
  {
    if |a| == 0 {
      assert |multiset(b)| == 0;
    } else {
      var n := |a| - 1;
      assert a[n] in multiset(b);
      var i :| 0 <= i < |b| && b[i] == a[n];
      MultisetRemove(a, n);
      MultisetRemove(b, i);
      ProjectionRemove(a, ra, f, n);
      ProjectionRemove(b, rb, f, i);
      ProjectionPermutation(a[..n] + a[n + 1..], b[..i] + b[i + 1..], ra[..n] + ra[n + 1..], rb[..i] + rb[i + 1..], f);
    }
  }

  /** In a set of two elements `a` and `b`, every element is `a` or `b`. */
  lemma OneOfTwo<T>(s: set<T>, a: T, b: T, x: T)
    requires |s| == 2 && a != b && a in s && b in s
    requires x in s
    ensures x == a || x == b
  {
    if x != a && x != b {
      assert {a, b, x} <= s;
      assert |{a, b, x}| == 3;
      SubsetCardinality({a, b, x}, s);
      assert false;
    }
  }

  /** A subset has at most as many elements as its superset. */
  lemma SubsetCardinality<T>(a: set<T>, b: set<T>)
    requires a <= b
    ensures |a| <= |b|
  {
    assert b == a + (b - a);
  }
}
