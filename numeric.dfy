/** Exact-arithmetic counterparts of the numeric library calls the engine
    makes: LINQ `Sum` and `Average`, `Math.Round(x, 2)`, and the minimum and
    maximum used to bound an average. */
module Numeric {
  import opened Collections

  /** LINQ `Sum`: a left fold of addition. */
  function Sum(s: seq<real>): real
  {
    if |s| == 0 then 0.0 else Sum(s[..|s| - 1]) + s[|s| - 1]
  }

  /** LINQ `Average`. The library throws on an empty sequence, so it is
      only defined on non-empty ones. */
  function Average(s: seq<real>): real
    requires |s| > 0
  {
    Sum(s) / (|s| as real)
  }

  /** The least element of a non-empty sequence. */
  function Min(s: seq<real>): (m: real)
    requires |s| > 0
    ensures m in s
    ensures forall i :: 0 <= i < |s| ==> m <= s[i]
  {
    if |s| == 1 then s[0]
    else
      var init := s[..|s| - 1];
      var m := Min(init);
      assert forall i :: 0 <= i < |s| - 1 ==> s[i] == init[i];
      if s[|s| - 1] < m then s[|s| - 1] else m
  }

  /** The greatest element of a non-empty sequence. */
  function Max(s: seq<real>): (m: real)
    requires |s| > 0
    ensures m in s
    ensures forall i :: 0 <= i < |s| ==> s[i] <= m
  {
    if |s| == 1 then s[0]
    else
      var init := s[..|s| - 1];
      var m := Max(init);
      assert forall i :: 0 <= i < |s| - 1 ==> s[i] == init[i];
      if s[|s| - 1] > m then s[|s| - 1] else m
  }

  /** A sum lies between `|s|` times any lower and any upper bound of its terms. */
  lemma {:induction false} SumBounds(s: seq<real>, lo: real, hi: real)
    requires forall i :: 0 <= i < |s| ==> lo <= s[i] <= hi
    ensures (|s| as real) * lo <= Sum(s) <= (|s| as real) * hi
  {
    if |s| > 0 {
      var init := s[..|s| - 1];
      assert forall i :: 0 <= i < |init| ==> init[i] == s[i];
      SumBounds(init, lo, hi);
    }
  }

  /** A non-empty sum of terms all above `c` is above `|s|` times `c`. */
  lemma {:induction false} SumAbove(s: seq<real>, c: real)
    requires |s| > 0
    requires forall i :: 0 <= i < |s| ==> s[i] > c
    ensures Sum(s) > (|s| as real) * c
  {
    var init := s[..|s| - 1];
    assert forall i :: 0 <= i < |init| ==> init[i] == s[i];
    if |init| > 0 {
      SumAbove(init, c);
    }
  }

  /** Dividing by a positive count keeps bounds: from `n * lo <= t` follows
      `lo <= t / n`, and likewise for an upper bound. */
  lemma DivideBounds(t: real, n: real, lo: real, hi: real)
    requires n > 0.0
    ensures n * lo <= t ==> lo <= t / n
    ensures t <= n * hi ==> t / n <= hi
    ensures n * lo < t ==> lo < t / n
  {
    var q := t / n;
    assert q * n == t;
    assert (q - lo) * n == t - n * lo;
    assert (hi - q) * n == n * hi - t;
  }

  /** An average lies between any lower and any upper bound of its terms. */
  lemma AverageBetween(s: seq<real>, lo: real, hi: real)
    requires |s| > 0
    requires forall i :: 0 <= i < |s| ==> lo <= s[i] <= hi
    ensures lo <= Average(s) <= hi
  {
    SumBounds(s, lo, hi);
    DivideBounds(Sum(s), |s| as real, lo, hi);
  }

  /** The average lies between the least and the greatest term. */
  lemma AverageWithinRange(s: seq<real>)
    requires |s| > 0
    ensures Min(s) <= Average(s) <= Max(s)
  {
    AverageBetween(s, Min(s), Max(s));
  }

  /** If every term is above `c`, so is the average. */
  lemma AverageAbove(s: seq<real>, c: real)
    requires |s| > 0
    requires forall i :: 0 <= i < |s| ==> s[i] > c
    ensures Average(s) > c
  {
    SumAbove(s, c);
    DivideBounds(Sum(s), |s| as real, c, c);
  }

  /** The average of a sequence whose terms all equal `c` is `c`. */
  lemma AverageOfConstant(s: seq<real>, c: real)
    requires |s| > 0
    requires forall i :: 0 <= i < |s| ==> s[i] == c
    ensures Average(s) == c
  {
    AverageBetween(s, c, c);
  }

  /** The sum of a concatenation is the sum of the sums. */
  lemma {:induction false} SumAppend(x: seq<real>, y: seq<real>)
    ensures Sum(x + y) == Sum(x) + Sum(y)
  {
    if |y| > 0 {
      var y0 := y[..|y| - 1];
      assert (x + y)[..|x + y| - 1] == x + y0;
      SumAppend(x, y0);
    } else {
      assert x + y == x;
    }
  }

  /** Appending one term adds it to the sum. */
  lemma SumSnoc(p: seq<real>, x: real)
    ensures Sum(p + [x]) == Sum(p) + x
  {
    assert (p + [x])[..|p|] == p;
  }

  /** A term in the middle of a sequence contributes itself to the sum. */
  lemma SumSplit(p: seq<real>, x: real, q: seq<real>)
    ensures Sum(p + [x] + q) == Sum(p + q) + x
  {
    SumAppend(p + [x], q);
    SumSnoc(p, x);
    SumAppend(p, q);
  }

  /** The sum depends only on which terms there are, not on their order. */
  lemma {:induction false} SumPermutation(a: seq<real>, b: seq<real>)
    requires multiset(a) == multiset(b)
    ensures Sum(a) == Sum(b)
    decreases |a|
  {
    if |a| == 0 {
      assert |multiset(b)| == 0;
    } else {
      var n := |a| - 1;
      assert a[n] in multiset(b);
      var i :| 0 <= i < |b| && b[i] == a[n];
      MultisetRemove(a, n);
      MultisetRemove(b, i);
      SumPermutation(a[..n] + a[n + 1..], b[..i] + b[i + 1..]);
      assert a == a[..n] + [a[n]] + a[n + 1..];
      assert b == b[..i] + [b[i]] + b[i + 1..];
      SumSplit(a[..n], a[n], a[n + 1..]);
      SumSplit(b[..i], b[i], b[i + 1..]);
    }
  }

  /** The average depends only on which terms there are, not on their order. */
  lemma AverageOrderIndependent(a: seq<real>, b: seq<real>)
    requires |a| > 0
    requires multiset(a) == multiset(b)
    ensures |b| == |a|
    ensures Average(a) == Average(b)
  {
    assert |multiset(a)| == |multiset(b)|;
    SumPermutation(a, b);
  }

  /** `Math.Round(x, 2)` on exact reals: the nearest multiple of 0.01,
      with a tie going to the even hundredth (the library's default
      midpoint rule). */
  function Round2(x: real): (r: real)
    ensures -0.005 <= r - x <= 0.005
    ensures (100.0 * r).Floor as real == 100.0 * r
  {
    var scaled := 100.0 * x;
    var f := scaled.Floor;
    var frac := scaled - f as real;
    var n := if frac < 0.5 then f
             else if frac > 0.5 then f + 1
             else if f % 2 == 0 then f
             else f + 1;
    n as real / 100.0
  }

  /** Rounding to hundredths never reverses the order of two values. */
  lemma Round2Monotone(x: real, y: real)
    requires x <= y
    ensures Round2(x) <= Round2(y)
  {
    var fx, fy := (100.0 * x).Floor, (100.0 * y).Floor;
    assert fx <= fy;
  }

  /** The midpoint rule: a value exactly halfway between two hundredths
      rounds to the one whose count of hundredths is even. */
  lemma Round2Midpoint(n: int)
    ensures Round2((n as real + 0.5) / 100.0) ==
      (if n % 2 == 0 then n else n + 1) as real / 100.0
  {
    var x := (n as real + 0.5) / 100.0;
    assert 100.0 * x == n as real + 0.5;
    assert (100.0 * x).Floor == n;
  }

  /** A value that already has at most two decimals is left unchanged. */
  lemma Round2OfHundredths(k: int)
    ensures Round2(k as real / 100.0) == k as real / 100.0
  {
    var x := k as real / 100.0;
    assert 100.0 * x == k as real;
    assert (100.0 * x).Floor == k;
  }
}
