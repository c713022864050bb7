/**
 * The free-time resolver, `get_free_slots` (main.py:46-59): sort the busy
 * list in place, sweep a cursor from the start of the working day, emit the
 * gap before every busy interval that starts after the cursor, and finally
 * the tail of the day if the cursor has not reached its end.
 */
module Resolver {
  import opened Intervals
  import opened Sorting

  /**
   * The gaps the sweep emits over `busy` from cursor position `cursor`
   * (main.py:51-57), the tail of the day included. Every gap is non-empty
   * and starts at or after the cursor, whatever the busy intervals are.
   */
  function Gaps(cursor: int, busy: seq<Interval>): (r: seq<Interval>)
    ensures AllWellFormed(r)
    ensures StartsFrom(r, cursor)
    decreases busy
  {
    if busy == [] then
      if cursor < WORK_END then [Interval(cursor, WORK_END)] else []
    else
      var b := busy[0];
      (if b.start > cursor then [Interval(cursor, b.start)] else [])
        + Gaps(Max(cursor, b.end), busy[1..])
  }

  /** The free list of a busy list: the sweep over its sorted copy (main.py:46-59). */
  function FreeSlots(busy: seq<Interval>): seq<Interval>
  {
    Gaps(WORK_START, Sort(busy))
  }

  /** The cursor sweep of main.py:48-59 over an already sorted busy list. */
  method Sweep(busy: seq<Interval>) returns (free: seq<Interval>)
    ensures free == Gaps(WORK_START, busy)
  {
    free := [];
    var current := WORK_START;
    var i := 0;
    while i < |busy|
      invariant 0 <= i <= |busy|
      invariant free + Gaps(current, busy[i..]) == Gaps(WORK_START, busy)
    {
      var b := busy[i];
      SweepStep(free, current, busy, i);
      if b.start > current {
        free := free + [Interval(current, b.start)];
      }
      current := Max(current, b.end);
      i := i + 1;
    }
    SweepEnd(free, current, busy);
    if current < WORK_END {
      free := free + [Interval(current, WORK_END)];
    }
  }

  /** The sweep's loop body keeps `free + Gaps(current, busy[i..])` unchanged. */
  lemma SweepStep(free: seq<Interval>, current: int, busy: seq<Interval>, i: int)
    requires 0 <= i < |busy|
    ensures free + Gaps(current, busy[i..]) ==
      (if busy[i].start > current then free + [Interval(current, busy[i].start)] else free)
        + Gaps(Max(current, busy[i].end), busy[i + 1..])
  {
    GapsUnfold(current, busy, i);
  }

  /** After the loop only the tail of the day is left to emit (main.py:56-57). */
  lemma SweepEnd(free: seq<Interval>, current: int, busy: seq<Interval>)
    ensures free + Gaps(current, busy[|busy|..]) ==
      if current < WORK_END then free + [Interval(current, WORK_END)] else free
  {
    assert busy[|busy|..] == [];
  }

  /** One step of the sweep: the gaps from position `i` are the gap before `busy[i]`, if any, and the gaps after it. */
  lemma GapsUnfold(cursor: int, busy: seq<Interval>, i: int)
    requires 0 <= i < |busy|
    ensures Gaps(cursor, busy[i..]) ==
      (if busy[i].start > cursor then [Interval(cursor, busy[i].start)] else [])
        + Gaps(Max(cursor, busy[i].end), busy[i + 1..])
  {
    assert busy[i..][0] == busy[i] && busy[i..][1..] == busy[i + 1..];
  }

  /**
   * `get_free_slots(busy)` (main.py:46-59). The caller's list is sorted in
   * place (main.py:47) and the free list of its old contents is returned.
   */
  method GetFreeSlots(busy: array<Interval>) returns (free: seq<Interval>)
    modifies busy
    ensures busy[..] == Sort(old(busy[..]))
    ensures free == FreeSlots(old(busy[..]))
  {
    SortInPlace(busy);
    free := Sweep(busy[..]);
  }

  /** An empty busy list leaves the whole working day free (main.py:49, 56-57). */
  lemma FreeSlotsOfEmpty()
    ensures FreeSlots([]) == [Interval(WORK_START, WORK_END)]
    ensures FreeSlots([]) == [Interval(9, 18)]
  {
  }

  /** Every free interval is non-empty and starts no earlier than the working day (main.py:49-57). */
  lemma FreeSlotsBounds(busy: seq<Interval>)
    ensures AllWellFormed(FreeSlots(busy))
    ensures StartsFrom(FreeSlots(busy), WORK_START)
  {
  }

  /** When no busy interval starts after the end of the day, no gap ends after it. */
  lemma {:induction false} GapsEndBy(cursor: int, busy: seq<Interval>)
    requires forall k :: 0 <= k < |busy| ==> busy[k].start <= WORK_END
    ensures forall k :: 0 <= k < |Gaps(cursor, busy)| ==> Gaps(cursor, busy)[k].end <= WORK_END
    decreases busy
  {
    if busy != [] {
      assert forall k :: 0 <= k < |busy[1..]| ==> busy[1..][k] == busy[k + 1];
      GapsEndBy(Max(cursor, busy[0].end), busy[1..]);
    }
  }

  /**
   * When no busy interval starts after WORK_END, the free list lies within
   * the working day: every free interval starts at or after WORK_START
   * and ends at or before WORK_END (main.py:49-57).
   */
  lemma FreeSlotsWithinDay(busy: seq<Interval>)
    requires forall k :: 0 <= k < |busy| ==> busy[k].start <= WORK_END
    ensures forall k :: 0 <= k < |FreeSlots(busy)| ==> Within(FreeSlots(busy)[k], Interval(WORK_START, WORK_END))
  {
    var s := Sort(busy);
    forall k | 0 <= k < |s| ensures s[k].start <= WORK_END {
      assert s[k] in multiset(busy);
      var j :| 0 <= j < |busy| && busy[j] == s[k];
    }
    GapsEndBy(WORK_START, s);
  }

  /** With non-empty busy intervals, in any order, each gap ends strictly before the next one starts. */
  lemma {:induction false} GapsSeparated(cursor: int, busy: seq<Interval>)
    requires AllWellFormed(busy)
    ensures Separated(Gaps(cursor, busy))
    decreases busy
  {
    if busy != [] {
      var b := busy[0];
      var next := Max(cursor, b.end);
      var head := if b.start > cursor then [Interval(cursor, b.start)] else [];
      var tail := Gaps(next, busy[1..]);
      GapsSeparated(next, busy[1..]);
      assert b.start < b.end;
      assert forall q :: 0 <= q < |tail| ==> next <= tail[q].start;
      SeparatedConcat(head, tail);
    }
  }

  /** For non-empty busy intervals the resolver returns a free list: non-empty, strictly increasing, disjoint intervals (main.py:51-57). */
  lemma FreeSlotsIsFreeList(busy: seq<Interval>)
    requires AllWellFormed(busy)
    ensures IsFreeList(FreeSlots(busy))
  {
    AllWellFormedPermutation(busy, Sort(busy));
    GapsSeparated(WORK_START, Sort(busy));
  }

  /**
   * Over a busy list sorted by start, an hour of the working day at or after
   * the cursor is covered by a gap exactly when no busy interval covers it.
   */
  lemma {:induction false} GapsPointwise(cursor: int, busy: seq<Interval>, h: int)
    requires Sorted(busy)
    requires cursor <= h < WORK_END
    ensures InSome(h, Gaps(cursor, busy)) <==> !InSome(h, busy)
    decreases busy
  {
    if busy == [] {
      assert Covers(Gaps(cursor, busy)[0], h);
    } else {
      var b := busy[0];
      var next := Max(cursor, b.end);
      var head := if b.start > cursor then [Interval(cursor, b.start)] else [];
      var tail := Gaps(next, busy[1..]);
      assert Gaps(cursor, busy) == head + tail;
      InSomeConcat(h, head, tail);
      assert busy == [b] + busy[1..];
      InSomeConcat(h, [b], busy[1..]);
      InSomeSingleton(h, b);
      if h < b.start {
        // The later intervals start no earlier than b, so none covers h; the gap before b does.
        forall k | 0 <= k < |busy[1..]| ensures !Covers(busy[1..][k], h) {
          assert LexLe(busy[0], busy[k + 1]);
        }
        assert Covers(head[0], h);
      } else if h < b.end {
        // Covered by b; the gap before b ends at its start and the later gaps start at or after its end.
        assert forall k :: 0 <= k < |tail| ==> !Covers(tail[k], h);
        assert !InSome(h, head);
      } else {
        assert !InSome(h, head);
        assert Sorted(busy[1..]) by {
          assert forall k :: 0 <= k < |busy[1..]| ==> busy[1..][k] == busy[k + 1];
        }
        GapsPointwise(next, busy[1..], h);
      }
    }
  }

  /**
   * For any busy list, reversed or empty entries included, an hour of the
   * working day lies in a free interval exactly when it lies in no busy
   * interval (main.py:46-59).
   */
  lemma FreeSlotsPointwise(busy: seq<Interval>, h: int)
    requires WORK_START <= h < WORK_END
    ensures InSome(h, FreeSlots(busy)) <==> !InSome(h, busy)
  {
    GapsPointwise(WORK_START, Sort(busy), h);
    InSomePermutation(busy, Sort(busy), h);
  }

  /** The resolver depends only on the multiset of busy intervals: re-resolving a sorted list gives the same free list. */
  lemma FreeSlotsOfSorted(busy: seq<Interval>)
    ensures FreeSlots(Sort(busy)) == FreeSlots(busy)
  {
    SortIdempotent(busy);
  }

  /**
   * Busy intervals are not clamped to the working day: two after-hours
   * entries yield a free interval that ends, and one that starts, after
   * WORK_END.
   */
  lemma FreeSlotsUnclamped()
    ensures FreeSlots([Interval(19, 20), Interval(22, 23)]) == [Interval(9, 19), Interval(20, 22)]
  {
    assert Sort([Interval(19, 20), Interval(22, 23)]) == [Interval(19, 20), Interval(22, 23)];
  }

  /**
   * Busy intervals are not validated: an entry with start > end lets the
   * sweep emit overlapping free intervals, so the free-list property needs
   * non-empty busy intervals.
   */
  lemma FreeSlotsOfReversedEntry()
    ensures FreeSlots([Interval(12, 13), Interval(12, 11)]) == [Interval(9, 12), Interval(11, 12), Interval(13, 18)]
    ensures !Separated(FreeSlots([Interval(12, 13), Interval(12, 11)]))
  {
    assert Sort([Interval(12, 13), Interval(12, 11)]) == [Interval(12, 11), Interval(12, 13)];
    var r := FreeSlots([Interval(12, 13), Interval(12, 11)]);
    assert r[0].end >= r[1].start;
  }
}
