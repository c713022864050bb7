/**
 * The in-place sort that the free-time resolver applies to a busy list
 * (main.py:47). Python compares `(start, end)` tuples lexicographically, so
 * ties on the start are broken by the end; since equal tuples are equal
 * values, the sorted result is fully determined by the input's multiset.
 */
module Sorting {
  import opened Intervals

  /** Insert `x` into a list, in front of the first element it does not exceed. */
  function Insert(x: Interval, s: seq<Interval>): (r: seq<Interval>)
    ensures multiset(r) == multiset(s) + multiset{x}
  {
    if s == [] then [x]
    else if LexLe(x, s[0]) then [x] + s
    else
      assert s == [s[0]] + s[1..];
      [s[0]] + Insert(x, s[1..])
  }

  /** Inserting into a sorted list keeps it sorted. */
  lemma {:induction false} InsertSorted(x: Interval, s: seq<Interval>)
    requires Sorted(s)
    ensures Sorted(Insert(x, s))
  {
    if s != [] && !LexLe(x, s[0]) {
      var rest := Insert(x, s[1..]);
      InsertSorted(x, s[1..]);
      forall q | 0 <= q < |rest| ensures LexLe(s[0], rest[q]) {
        assert rest[q] in multiset(s[1..]) + multiset{x};
        if rest[q] != x {
          assert rest[q] in s[1..];
          var k :| 0 <= k < |s[1..]| && s[1..][k] == rest[q];
          assert s[k + 1] == rest[q];
        }
      }
      var r := [s[0]] + rest;
      forall p, q | 0 <= p < q < |r| ensures LexLe(r[p], r[q]) {
        if p > 0 { assert r[p] == rest[p - 1] && r[q] == rest[q - 1]; }
        else { assert r[q] == rest[q - 1]; }
      }
    }
  }

  /** The reference sort: insertion sort by the tuple order. */
  function Sort(s: seq<Interval>): (r: seq<Interval>)
    ensures Sorted(r)
    ensures multiset(r) == multiset(s)
  {
    if s == [] then []
    else
      assert s == [s[0]] + s[1..];
      InsertSorted(s[0], Sort(s[1..]));
      Insert(s[0], Sort(s[1..]))
  }

  /** Two sorted arrangements of the same multiset are identical: the order on tuples is total and antisymmetric. */
  lemma {:induction false} SortedPermutationUnique(x: seq<Interval>, y: seq<Interval>)
    requires Sorted(x) && Sorted(y)
    requires multiset(x) == multiset(y)
    ensures x == y
  {
    if x == [] {
      assert |y| == |multiset(y)| == 0;
    } else {
      assert |y| == |multiset(y)| == |x|;
      assert x[0] in multiset(y);
      assert y[0] in multiset(x);
      var j :| 0 <= j < |y| && y[j] == x[0];
      var i :| 0 <= i < |x| && x[i] == y[0];
      assert LexLe(y[0], x[0]) by { if j > 0 { assert LexLe(y[0], y[j]); } }
      assert LexLe(x[0], y[0]) by { if i > 0 { assert LexLe(x[0], x[i]); } }
      assert x[0] == y[0];
      assert x == [x[0]] + x[1..];
      assert y == [y[0]] + y[1..];
      assert multiset(x) == multiset{x[0]} + multiset(x[1..]);
      assert multiset(y) == multiset{y[0]} + multiset(y[1..]);
      assert multiset(x[1..]) == multiset(x) - multiset{x[0]};
      assert multiset(y[1..]) == multiset(y) - multiset{y[0]};
      SortedPermutationUnique(x[1..], y[1..]);
    }
  }

  /** Sorting a sorted list changes nothing; in particular sorting twice is sorting once. */
  lemma SortOfSorted(s: seq<Interval>)
    requires Sorted(s)
    ensures Sort(s) == s
  {
    SortedPermutationUnique(Sort(s), s);
  }

  lemma SortIdempotent(s: seq<Interval>)
    ensures Sort(Sort(s)) == Sort(s)
  {
    SortOfSorted(Sort(s));
  }

  /** Swap two elements of an array. */
  method Swap(a: array<Interval>, i: int, j: int)
    requires 0 <= i < a.Length && 0 <= j < a.Length
    modifies a
    ensures a[..] == old(a[..])[i := old(a[j])][j := old(a[i])]
    ensures multiset(a[..]) == multiset(old(a[..]))
  {
    a[i], a[j] := a[j], a[i];
  }

  /**
   * `list.sort()` on a busy list (main.py:47): an in-place insertion sort.
   * The result is the reference sort of the old contents.
   */
  method SortInPlace(a: array<Interval>)
    modifies a
    ensures a[..] == Sort(old(a[..]))
  {
    var i := 0;
    while i < a.Length
      invariant 0 <= i <= a.Length
      invariant Sorted(a[..i])
      invariant multiset(a[..]) == multiset(old(a[..]))
    {
      InsertAt(a, i);
      i := i + 1;
    }
    assert a[..a.Length] == a[..];
    SortedPermutationUnique(a[..], Sort(old(a[..])));
  }

  /** Move `a[i]` left past every larger element, extending the sorted prefix by one. */
  method InsertAt(a: array<Interval>, i: int)
    requires 0 <= i < a.Length
    requires Sorted(a[..i])
    modifies a
    ensures Sorted(a[..i + 1])
    ensures multiset(a[..]) == multiset(old(a[..]))
    ensures a[i + 1..] == old(a[i + 1..])
  {
    var j := i;
    while j > 0 && !LexLe(a[j - 1], a[j])
      invariant 0 <= j <= i
      invariant multiset(a[..]) == multiset(old(a[..]))
      invariant forall p, q :: 0 <= p < q <= i && p != j && q != j ==> LexLe(a[p], a[q])
      invariant forall q :: j < q <= i ==> LexLe(a[j], a[q])
      invariant a[i + 1..] == old(a[i + 1..])
    {
      Swap(a, j - 1, j);
      j := j - 1;
    }
    forall p, q | 0 <= p < q <= i ensures LexLe(a[p], a[q]) {
      if q == j && p < j - 1 {
        assert LexLe(a[p], a[j - 1]);
      }
    }
    assert forall p, q :: 0 <= p < q < |a[..i + 1]| ==> a[..i + 1][p] == a[p] && a[..i + 1][q] == a[q];
  }
}
