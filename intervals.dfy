/**
 * Hour intervals and the working day of the availability engine.
 *
 * An interval is the `(start, end)` pair of integer hours the schedule store
 * keeps, read as the half-open range [start, end). Nothing here restricts the
 * two numbers: the store accepts any pair, so every property below says which
 * shape of input it needs.
 */
module Intervals {

  /** First hour of the working day (main.py:23). */
  const WORK_START: int := 9
  /** Hour at which the working day ends (main.py:24). */
  const WORK_END: int := 18

  datatype Interval = Interval(start: int, end: int)

  function Max(a: int, b: int): int { if a >= b then a else b }
  function Min(a: int, b: int): int { if a <= b then a else b }

  /** Hour `h` lies in the half-open range of `i`. */
  predicate Covers(i: Interval, h: int)
  {
    i.start <= h < i.end
  }

  /** Hour `h` lies in at least one interval of `s`. */
  predicate InSome(h: int, s: seq<Interval>)
  {
    exists k :: 0 <= k < |s| && Covers(s[k], h)
  }

  /** Every interval of `s` is non-empty (start < end). */
  predicate AllWellFormed(s: seq<Interval>)
  {
    forall k :: 0 <= k < |s| ==> s[k].start < s[k].end
  }

  /** Each interval of `s` ends strictly before every later one starts. */
  predicate Separated(s: seq<Interval>)
  {
    forall p, q :: 0 <= p < q < |s| ==> s[p].end < s[q].start
  }

  /** Non-empty intervals, strictly increasing and pairwise disjoint. */
  predicate IsFreeList(s: seq<Interval>)
  {
    AllWellFormed(s) && Separated(s)
  }

  /** No interval of `s` starts before `lo`. */
  predicate StartsFrom(s: seq<Interval>, lo: int)
  {
    forall k :: 0 <= k < |s| ==> lo <= s[k].start
  }

  /** `inner` is a sub-range of `outer`. */
  predicate Within(inner: Interval, outer: Interval)
  {
    outer.start <= inner.start && inner.end <= outer.end
  }

  /** `r` is a sub-range of some interval of `s`. */
  predicate CoveredBy(r: Interval, s: seq<Interval>)
  {
    exists k :: 0 <= k < |s| && Within(r, s[k])
  }

  /** Lexicographic order on pairs, the order Python uses for tuples. */
  predicate LexLe(a: Interval, b: Interval)
  {
    a.start < b.start || (a.start == b.start && a.end <= b.end)
  }

  predicate Sorted(s: seq<Interval>)
  {
    forall p, q :: 0 <= p < q < |s| ==> LexLe(s[p], s[q])
  }

  /** Concatenating two separated lists, the first ending before the second starts, keeps them separated. */
  lemma SeparatedConcat(x: seq<Interval>, y: seq<Interval>)
    requires Separated(x) && Separated(y)
    requires forall p, q :: 0 <= p < |x| && 0 <= q < |y| ==> x[p].end < y[q].start
    ensures Separated(x + y)
  {
    var z := x + y;
    forall p, q | 0 <= p < q < |z| ensures z[p].end < z[q].start {
      if q < |x| {
        assert z[p] == x[p] && z[q] == x[q];
      } else if p < |x| {
        assert z[p] == x[p] && z[q] == y[q - |x|];
      } else {
        assert z[p] == y[p - |x|] && z[q] == y[q - |x|];
      }
    }
  }

  /** An hour lies in a concatenation exactly when it lies in one of the parts. */
  lemma InSomeConcat(h: int, x: seq<Interval>, y: seq<Interval>)
    ensures InSome(h, x + y) <==> InSome(h, x) || InSome(h, y)
  {
    if InSome(h, x + y) {
      var k :| 0 <= k < |x + y| && Covers((x + y)[k], h);
      if k < |x| { assert Covers(x[k], h); } else { assert Covers(y[k - |x|], h); }
    }
    if InSome(h, x) {
      var k :| 0 <= k < |x| && Covers(x[k], h);
      assert (x + y)[k] == x[k];
    }
    if InSome(h, y) {
      var k :| 0 <= k < |y| && Covers(y[k], h);
      assert (x + y)[|x| + k] == y[k];
    }
  }

  lemma InSomeSingleton(h: int, i: Interval)
    ensures InSome(h, [i]) <==> Covers(i, h)
  {
    if Covers(i, h) { assert Covers([i][0], h); }
  }

  /** Membership of an hour depends only on the elements of a list, not on their order or multiplicity. */
  lemma InSomePermutation(x: seq<Interval>, y: seq<Interval>, h: int)
    requires multiset(x) == multiset(y)
    ensures InSome(h, x) <==> InSome(h, y)
  {
    if InSome(h, x) {
      var k :| 0 <= k < |x| && Covers(x[k], h);
      assert x[k] in multiset(y);
      var j :| 0 <= j < |y| && y[j] == x[k];
      assert Covers(y[j], h);
    }
    if InSome(h, y) {
      var k :| 0 <= k < |y| && Covers(y[k], h);
      assert y[k] in multiset(x);
      var j :| 0 <= j < |x| && x[j] == y[k];
      assert Covers(x[j], h);
    }
  }

  /** Being well formed is a property of the elements alone. */
  lemma AllWellFormedPermutation(x: seq<Interval>, y: seq<Interval>)
    requires multiset(x) == multiset(y)
    requires AllWellFormed(x)
    ensures AllWellFormed(y)
  {
    forall k | 0 <= k < |y| ensures y[k].start < y[k].end {
      assert y[k] in multiset(x);
      var j :| 0 <= j < |x| && x[j] == y[k];
    }
  }
}
