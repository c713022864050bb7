/**
 * The multi-party intersector of `find_common_free_time` (main.py:78-88):
 * start from the first member's free list and fold every further list into
 * it, pairing each running interval (outer loop) with each interval of the
 * next list (inner loop) and keeping the overlap when it is non-empty.
 */
module Intersector {
  import opened Intervals

  /** The overlap of two intervals, `(max starts, min ends)` (main.py:84-85); it may be empty. */
  function Meet(a: Interval, b: Interval): (r: Interval)
    ensures Within(r, a) && Within(r, b)
  {
    Interval(Max(a.start, b.start), Min(a.end, b.end))
  }

  /** The non-empty overlaps of `a` with each interval of `slots`, in order: the inner loop (main.py:83-87). */
  function MeetEach(a: Interval, slots: seq<Interval>): seq<Interval>
  {
    if slots == [] then []
    else
      var m := Meet(a, slots[|slots| - 1]);
      MeetEach(a, slots[..|slots| - 1]) + (if m.start < m.end then [m] else [])
  }

  /** One fold step, `new_common` built from `common` and `slots` (main.py:81-88). */
  function Intersect(common: seq<Interval>, slots: seq<Interval>): seq<Interval>
  {
    if common == [] then []
    else Intersect(common[..|common| - 1], slots) + MeetEach(common[|common| - 1], slots)
  }

  /** The left fold over all members' free lists (main.py:78-88). */
  function Fold(lists: seq<seq<Interval>>): seq<Interval>
    requires |lists| > 0
  {
    if |lists| == 1 then lists[0]
    else Intersect(Fold(lists[..|lists| - 1]), lists[|lists| - 1])
  }

  /** The fold of main.py:78-88, with its nested loops. */
  method IntersectAll(all: seq<seq<Interval>>) returns (common: seq<Interval>)
    requires |all| > 0
    ensures common == Fold(all)
  {
    common := all[0];
    var k := 1;
    assert all[..1] == [all[0]];
    while k < |all|
      invariant 1 <= k <= |all|
      invariant common == Fold(all[..k])
    {
      var slots := all[k];
      var newCommon := [];
      var i := 0;
      while i < |common|
        invariant 0 <= i <= |common|
        invariant newCommon == Intersect(common[..i], slots)
      {
        var a := common[i];
        var j := 0;
        while j < |slots|
          invariant 0 <= j <= |slots|
          invariant newCommon == Intersect(common[..i], slots) + MeetEach(a, slots[..j])
        {
          var b := slots[j];
          var start := Max(a.start, b.start);
          var end := Min(a.end, b.end);
          MeetEachStep(a, slots, j);
          if start < end {
            newCommon := newCommon + [Interval(start, end)];
          }
          j := j + 1;
        }
        IntersectStep(common, i, slots);
        i := i + 1;
      }
      FoldStep(all, k, common);
      common := newCommon;
      k := k + 1;
    }
    assert all[..k] == all;
  }

  lemma MeetEachStep(a: Interval, slots: seq<Interval>, j: int)
    requires 0 <= j < |slots|
    ensures MeetEach(a, slots[..j + 1]) == MeetEach(a, slots[..j]) +
      (if Meet(a, slots[j]).start < Meet(a, slots[j]).end then [Meet(a, slots[j])] else [])
  {
    assert slots[..j + 1][..j] == slots[..j];
  }

  lemma IntersectStep(common: seq<Interval>, i: int, slots: seq<Interval>)
    requires 0 <= i < |common|
    ensures Intersect(common[..i + 1], slots) == Intersect(common[..i], slots) + MeetEach(common[i], slots[..|slots|])
  {
    assert slots[..|slots|] == slots;
    assert common[..i + 1][..i] == common[..i];
  }

  lemma FoldStep(all: seq<seq<Interval>>, k: int, common: seq<Interval>)
    requires 1 <= k < |all|
    requires common == Fold(all[..k])
    ensures Fold(all[..k + 1]) == Intersect(common[..|common|], all[k])
  {
    assert common[..|common|] == common;
    assert all[..k + 1][..k] == all[..k];
  }

  /** An hour lies in some overlap of `a` with `slots` exactly when it lies in `a` and in some interval of `slots`. */
  lemma {:induction false} MeetEachPointwise(a: Interval, slots: seq<Interval>, h: int)
    ensures InSome(h, MeetEach(a, slots)) <==> Covers(a, h) && InSome(h, slots)
    decreases |slots|
  {
    if slots != [] {
      var init := slots[..|slots| - 1];
      var last := slots[|slots| - 1];
      var m := Meet(a, last);
      var one := if m.start < m.end then [m] else [];
      MeetEachPointwise(a, init, h);
      InSomeConcat(h, MeetEach(a, init), one);
      assert slots == init + [last];
      InSomeConcat(h, init, [last]);
      InSomeSingleton(h, last);
      assert InSome(h, one) <==> Covers(m, h) by {
        if Covers(m, h) { assert Covers(one[0], h); }
      }
    }
  }

  /** An hour lies in the result of one fold step exactly when it lies in both inputs (main.py:81-88). */
  lemma {:induction false} IntersectPointwise(common: seq<Interval>, slots: seq<Interval>, h: int)
    ensures InSome(h, Intersect(common, slots)) <==> InSome(h, common) && InSome(h, slots)
    decreases |common|
  {
    if common != [] {
      var init := common[..|common| - 1];
      var last := common[|common| - 1];
      IntersectPointwise(init, slots, h);
      MeetEachPointwise(last, slots, h);
      InSomeConcat(h, Intersect(init, slots), MeetEach(last, slots));
      assert common == init + [last];
      InSomeConcat(h, init, [last]);
      InSomeSingleton(h, last);
    }
  }

  /** Every overlap of `a` with `slots` is non-empty, lies within `a` and within some interval of `slots`. */
  lemma {:induction false} MeetEachShape(a: Interval, slots: seq<Interval>)
    ensures AllWellFormed(MeetEach(a, slots))
    ensures forall k :: 0 <= k < |MeetEach(a, slots)| ==>
      Within(MeetEach(a, slots)[k], a) && CoveredBy(MeetEach(a, slots)[k], slots)
    decreases |slots|
  {
    if slots != [] {
      var init := slots[..|slots| - 1];
      var last := slots[|slots| - 1];
      MeetEachShape(a, init);
      var r := MeetEach(a, slots);
      forall k | 0 <= k < |r|
        ensures r[k].start < r[k].end && Within(r[k], a) && CoveredBy(r[k], slots)
      {
        if k < |MeetEach(a, init)| {
          var j :| 0 <= j < |init| && Within(MeetEach(a, init)[k], init[j]);
          assert slots[j] == init[j];
        } else {
          assert Within(r[k], slots[|slots| - 1]);
        }
      }
    }
  }

  /** Every interval of a fold step is non-empty and lies within an interval of each input. */
  lemma {:induction false} IntersectShape(common: seq<Interval>, slots: seq<Interval>)
    ensures AllWellFormed(Intersect(common, slots))
    ensures forall k :: 0 <= k < |Intersect(common, slots)| ==>
      CoveredBy(Intersect(common, slots)[k], common) && CoveredBy(Intersect(common, slots)[k], slots)
    decreases |common|
  {
    if common != [] {
      var init := common[..|common| - 1];
      var last := common[|common| - 1];
      IntersectShape(init, slots);
      MeetEachShape(last, slots);
      var left := Intersect(init, slots);
      var right := MeetEach(last, slots);
      var r := Intersect(common, slots);
      forall k | 0 <= k < |r|
        ensures r[k].start < r[k].end && CoveredBy(r[k], common) && CoveredBy(r[k], slots)
      {
        if k < |left| {
          assert r[k] == left[k];
          var j :| 0 <= j < |init| && Within(left[k], init[j]);
          assert common[j] == init[j];
        } else {
          assert r[k] == right[k - |left|];
          assert Within(r[k], common[|common| - 1]);
        }
      }
    }
  }

  /** With a separated `slots`, the overlaps of `a` come out separated too. */
  lemma {:induction false} MeetEachSeparated(a: Interval, slots: seq<Interval>)
    requires Separated(slots)
    ensures Separated(MeetEach(a, slots))
    decreases |slots|
  {
    if slots != [] {
      var init := slots[..|slots| - 1];
      var last := slots[|slots| - 1];
      var m := Meet(a, last);
      var one := if m.start < m.end then [m] else [];
      var left := MeetEach(a, init);
      MeetEachSeparated(a, init);
      MeetEachShape(a, init);
      forall p, q | 0 <= p < |left| && 0 <= q < |one| ensures left[p].end < one[q].start {
        var j :| 0 <= j < |init| && Within(left[p], init[j]);
        assert init[j] == slots[j];
      }
      SeparatedConcat(left, one);
    }
  }

  /** A fold step preserves "sorted and pairwise disjoint" when both inputs have it (main.py:81-88). */
  lemma {:induction false} IntersectSeparated(common: seq<Interval>, slots: seq<Interval>)
    requires Separated(common) && Separated(slots)
    ensures Separated(Intersect(common, slots))
    decreases |common|
  {
    if common != [] {
      var init := common[..|common| - 1];
      var last := common[|common| - 1];
      var left := Intersect(init, slots);
      var right := MeetEach(last, slots);
      IntersectSeparated(init, slots);
      MeetEachSeparated(last, slots);
      IntersectShape(init, slots);
      MeetEachShape(last, slots);
      forall p, q | 0 <= p < |left| && 0 <= q < |right| ensures left[p].end < right[q].start {
        var j :| 0 <= j < |init| && Within(left[p], init[j]);
        assert init[j] == common[j];
        assert Within(right[q], last);
      }
      SeparatedConcat(left, right);
    }
  }

  /** After the fold, an hour is common exactly when it is free in every list (main.py:78-88). */
  lemma {:induction false} FoldPointwise(lists: seq<seq<Interval>>, h: int)
    requires |lists| > 0
    ensures InSome(h, Fold(lists)) <==> forall k :: 0 <= k < |lists| ==> InSome(h, lists[k])
    decreases |lists|
  {
    if |lists| > 1 {
      var init := lists[..|lists| - 1];
      var last := lists[|lists| - 1];
      FoldPointwise(init, h);
      IntersectPointwise(Fold(init), last, h);
      EveryListSplit(lists, h);
    }
  }

  /** Hour `h` lies in some interval of every list. */
  predicate InEvery(h: int, lists: seq<seq<Interval>>)
  {
    forall k :: 0 <= k < |lists| ==> InSome(h, lists[k])
  }

  /** An hour is in every list exactly when it is in every list but the last, and in the last. */
  lemma EveryListSplit(lists: seq<seq<Interval>>, h: int)
    requires |lists| > 0
    ensures InEvery(h, lists) <==> InEvery(h, lists[..|lists| - 1]) && InSome(h, lists[|lists| - 1])
  {
    var init := lists[..|lists| - 1];
    assert forall k :: 0 <= k < |init| ==> init[k] == lists[k];
  }

  /**
   * Every interval of the fold lies within an interval of every list; with
   * more than one list, or a first list of non-empty intervals, every one is
   * non-empty (main.py:84-87).
   */
  lemma {:induction false} FoldShape(lists: seq<seq<Interval>>)
    requires |lists| > 0
    requires |lists| > 1 || AllWellFormed(lists[0])
    ensures AllWellFormed(Fold(lists))
    ensures forall r, k :: r in Fold(lists) && 0 <= k < |lists| ==> CoveredBy(r, lists[k])
    decreases |lists|
  {
    var f := Fold(lists);
    if |lists| == 1 {
      forall r | r in f ensures CoveredBy(r, lists[0]) {
        var i :| 0 <= i < |f| && f[i] == r;
        assert Within(r, lists[0][i]);
      }
    } else {
      var init := lists[..|lists| - 1];
      var last := lists[|lists| - 1];
      var prev := Fold(init);
      IntersectShape(prev, last);
      if |init| > 1 || AllWellFormed(init[0]) {
        FoldShape(init);
        forall r, k | r in f && 0 <= k < |lists| ensures CoveredBy(r, lists[k]) {
          var i :| 0 <= i < |f| && f[i] == r;
          if k == |lists| - 1 {
          } else {
            var j :| 0 <= j < |prev| && Within(r, prev[j]);
            assert prev[j] in prev;
            assert CoveredBy(prev[j], init[k]);
            var l :| 0 <= l < |init[k]| && Within(prev[j], init[k][l]);
            assert Within(r, lists[k][l]);
          }
        }
      } else {
        // Two lists, the first possibly holding empty intervals: the fold is one step.
        assert |lists| == 2 && prev == lists[0];
        forall r, k | r in f && 0 <= k < |lists| ensures CoveredBy(r, lists[k]) {
          var i :| 0 <= i < |f| && f[i] == r;
        }
      }
    }
  }

  /** The fold keeps the free-list shape when every list has it. */
  lemma {:induction false} FoldIsFreeList(lists: seq<seq<Interval>>)
    requires |lists| > 0
    requires forall k :: 0 <= k < |lists| ==> IsFreeList(lists[k])
    ensures IsFreeList(Fold(lists))
    decreases |lists|
  {
    FoldShape(lists);
    if |lists| > 1 {
      var init := lists[..|lists| - 1];
      FoldIsFreeList(init);
      IntersectSeparated(Fold(init), lists[|lists| - 1]);
    }
  }

  lemma {:induction false} IntersectWithEmpty(common: seq<Interval>)
    ensures Intersect(common, []) == []
    decreases |common|
  {
    if common != [] {
      IntersectWithEmpty(common[..|common| - 1]);
    }
  }

  /** Once some list is empty, the fold is empty (main.py:80-88). */
  lemma {:induction false} FoldWithEmptyMember(lists: seq<seq<Interval>>, k: int)
    requires 0 <= k < |lists|
    requires lists[k] == []
    ensures Fold(lists) == []
    decreases |lists|
  {
    if |lists| > 1 {
      var init := lists[..|lists| - 1];
      if k == |lists| - 1 {
        IntersectWithEmpty(Fold(init));
      } else {
        FoldWithEmptyMember(init, k);
      }
    }
  }

  /** With one member the fold loop does not run and the result is that member's list (main.py:78-80). */
  lemma FoldSingle(list: seq<Interval>)
    ensures Fold([list]) == list
  {
  }
}
