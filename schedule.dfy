/**
 * The schedule store and the two tools built on it (main.py:21-110):
 * `add_busy_time` appends to a person's busy list, `find_common_free_time`
 * resolves every member's free list and folds them into the common one,
 * and `meeting_message` announces the result.
 */
module Schedule {
  import opened Intervals
  import opened Sorting
  import opened Resolver
  import opened Intersector
  import opened Presentation

  /** Person name to busy list, as in `SCHEDULES` (main.py:21). */
  type Store = map<string, seq<Interval>>

  /** `SCHEDULES.get(name, [])` (main.py:73): an unknown person has no busy time. */
  function Lookup(store: Store, name: string): seq<Interval>
  {
    if name in store then store[name] else []
  }

  /** The members' free lists, in the order the members are given (main.py:70-75). */
  function FreeListsOf(store: Store, members: seq<string>): seq<seq<Interval>>
  {
    seq(|members|, k requires 0 <= k < |members| => FreeSlots(Lookup(store, members[k])))
  }

  /** The common free intervals of `members` (main.py:70-88). */
  function CommonFree(store: Store, members: seq<string>): seq<Interval>
    requires |members| > 0
  {
    Fold(FreeListsOf(store, members))
  }

  /**
   * The store after a query for `names`: each queried person's list has been
   * sorted in place (main.py:47, 73), nobody has been added, and the lists
   * of everybody else are untouched.
   */
  function SortedEntries(store: Store, names: seq<string>): (r: Store)
    ensures r.Keys == store.Keys
    ensures forall k :: k in r ==> multiset(r[k]) == multiset(store[k])
    ensures forall k :: k in r && k in names ==> Sorted(r[k])
    ensures forall k :: k in r && k !in names ==> r[k] == store[k]
  {
    map k | k in store :: if k in names then Sort(store[k]) else store[k]
  }

  /** An hour is common exactly when it lies in a free interval of every member (main.py:78-88). */
  lemma CommonFreeIffFreeForAll(store: Store, members: seq<string>, h: int)
    requires |members| > 0
    ensures InSome(h, CommonFree(store, members)) <==>
      forall k :: 0 <= k < |members| ==> InSome(h, FreeSlots(Lookup(store, members[k])))
  {
    var lists := FreeListsOf(store, members);
    FoldPointwise(lists, h);
    forall k | 0 <= k < |members| ensures lists[k] == FreeSlots(Lookup(store, members[k])) {
    }
  }

  /** An hour of the working day is common exactly when no member is busy at that hour. */
  lemma CommonFreeIffNobodyBusy(store: Store, members: seq<string>, h: int)
    requires |members| > 0
    requires WORK_START <= h < WORK_END
    ensures InSome(h, CommonFree(store, members)) <==>
      forall k :: 0 <= k < |members| ==> !InSome(h, Lookup(store, members[k]))
  {
    CommonFreeIffFreeForAll(store, members, h);
    forall k | 0 <= k < |members|
      ensures InSome(h, FreeSlots(Lookup(store, members[k]))) <==> !InSome(h, Lookup(store, members[k]))
    {
      FreeSlotsPointwise(Lookup(store, members[k]), h);
    }
  }

  /** Every member of `members` is free at hour `h`. */
  predicate FreeForAll(store: Store, members: seq<string>, h: int)
  {
    forall k :: 0 <= k < |members| ==> InSome(h, FreeSlots(Lookup(store, members[k])))
  }

  lemma FreeForAllOfSubset(store: Store, members: seq<string>, others: seq<string>, h: int)
    requires forall m :: m in others ==> m in members
    requires FreeForAll(store, members, h)
    ensures FreeForAll(store, others, h)
  {
    forall j | 0 <= j < |others| ensures InSome(h, FreeSlots(Lookup(store, others[j]))) {
      assert others[j] in members;
      var k :| 0 <= k < |members| && members[k] == others[j];
    }
  }

  /**
   * The common time does not depend on the order in which the members are
   * named, nor on a name given twice: any two lists naming the same people
   * have the same common hours (main.py:72-88).
   */
  lemma CommonFreeOrderIndependent(store: Store, members: seq<string>, others: seq<string>, h: int)
    requires |members| > 0 && |others| > 0
    requires forall m :: m in members <==> m in others
    ensures InSome(h, CommonFree(store, members)) <==> InSome(h, CommonFree(store, others))
  {
    CommonFreeIffFreeForAll(store, members, h);
    CommonFreeIffFreeForAll(store, others, h);
    if FreeForAll(store, members, h) {
      FreeForAllOfSubset(store, members, others, h);
    }
    if FreeForAll(store, others, h) {
      FreeForAllOfSubset(store, others, members, h);
    }
  }

  /**
   * Within the working day, adding a member with no busy time leaves the
   * common hours of the others unchanged.
   */
  lemma CommonFreeWithIdleMember(store: Store, members: seq<string>, idle: string, h: int)
    requires |members| > 0
    requires Lookup(store, idle) == []
    requires WORK_START <= h < WORK_END
    ensures InSome(h, CommonFree(store, members + [idle])) <==> InSome(h, CommonFree(store, members))
  {
    var all := members + [idle];
    CommonFreeIffFreeForAll(store, members, h);
    CommonFreeIffFreeForAll(store, all, h);
    FreeSlotsOfEmpty();
    assert all[|members|] == idle;
    assert InSome(h, FreeSlots(Lookup(store, idle))) by {
      assert Covers(FreeSlots(Lookup(store, idle))[0], h);
    }
    assert forall k :: 0 <= k < |members| ==> all[k] == members[k];
  }

  /**
   * Every common interval is non-empty and lies within a free interval of
   * every member (main.py:84-87).
   */
  lemma CommonFreeShape(store: Store, members: seq<string>)
    requires |members| > 0
    ensures AllWellFormed(CommonFree(store, members))
    ensures forall r, k :: r in CommonFree(store, members) && 0 <= k < |members| ==>
      CoveredBy(r, FreeSlots(Lookup(store, members[k])))
  {
    var lists := FreeListsOf(store, members);
    FreeSlotsBounds(Lookup(store, members[0]));
    FoldShape(lists);
    forall r, k | r in Fold(lists) && 0 <= k < |members|
      ensures CoveredBy(r, FreeSlots(Lookup(store, members[k])))
    {
      assert CoveredBy(r, lists[k]);
    }
  }

  /**
   * When every busy interval of every member is non-empty, the common list
   * is a free list: sorted, pairwise disjoint, non-empty intervals.
   */
  lemma CommonFreeIsFreeList(store: Store, members: seq<string>)
    requires |members| > 0
    requires forall k :: 0 <= k < |members| ==> AllWellFormed(Lookup(store, members[k]))
    ensures IsFreeList(CommonFree(store, members))
  {
    var lists := FreeListsOf(store, members);
    forall k | 0 <= k < |lists| ensures IsFreeList(lists[k]) {
      FreeSlotsIsFreeList(Lookup(store, members[k]));
    }
    FoldIsFreeList(lists);
  }

  /** A member with no free time at all empties the common list. */
  lemma CommonFreeWithFullyBusyMember(store: Store, members: seq<string>, k: int)
    requires 0 <= k < |members|
    requires FreeSlots(Lookup(store, members[k])) == []
    ensures CommonFree(store, members) == []
  {
    FoldWithEmptyMember(FreeListsOf(store, members), k);
  }

  /** With one member the common list is that member's free list (main.py:78-80). */
  lemma CommonFreeOfOne(store: Store, name: string)
    ensures CommonFree(store, [name]) == FreeSlots(Lookup(store, name))
  {
    FoldSingle(FreeSlots(Lookup(store, name)));
  }

  /** The store of the comment at main.py:16-19. */
  function ExampleStore(): Store
  {
    map["Alice" := [Interval(10, 11), Interval(14, 16)], "Bob" := [Interval(9, 10), Interval(13, 15)]]
  }

  /** Alice's and Bob's free lists in the example store (main.py:16-19). */
  lemma ExampleFreeSlots()
    ensures FreeSlots(Lookup(ExampleStore(), "Alice")) == [Interval(9, 10), Interval(11, 14), Interval(16, 18)]
    ensures FreeSlots(Lookup(ExampleStore(), "Bob")) == [Interval(10, 13), Interval(15, 18)]
  {
    var alice := [Interval(10, 11), Interval(14, 16)];
    var bob := [Interval(9, 10), Interval(13, 15)];
    assert Lookup(ExampleStore(), "Alice") == alice;
    assert Lookup(ExampleStore(), "Bob") == bob;
    TwoBusyFreeSlots(10, 11, 14, 16);
    TwoBusyFreeSlots(9, 10, 13, 15);
  }

  /** The sweep over two sorted, separated busy intervals inside the working day. */
  lemma TwoBusyFreeSlots(s1: int, e1: int, s2: int, e2: int)
    requires WORK_START <= s1 < e1 < s2 < e2 < WORK_END
    ensures FreeSlots([Interval(s1, e1), Interval(s2, e2)]) ==
      (if WORK_START < s1 then [Interval(WORK_START, s1)] else []) + [Interval(e1, s2), Interval(e2, WORK_END)]
  {
    var busy := [Interval(s1, e1), Interval(s2, e2)];
    SortOfSorted(busy);
    assert busy[1..] == [Interval(s2, e2)];
    assert busy[1..][1..] == [];
    assert Gaps(e2, []) == [Interval(e2, WORK_END)];
    assert Gaps(e1, busy[1..]) == [Interval(e1, s2)] + Gaps(e2, []);
  }

  lemma FormatExampleSlots()
    ensures FormatSlot(Interval(11, 13)) == "11:00\U{2013}13:00"
    ensures FormatSlot(Interval(16, 18)) == "16:00\U{2013}18:00"
    ensures FormatSlot(Interval(9, 18)) == "9:00\U{2013}18:00"
  {
    assert NatToString(11) == "11" && NatToString(13) == "13";
    assert NatToString(16) == "16" && NatToString(18) == "18";
    assert NatToString(9) == "9";
  }

  /** The fold step on Alice's and Bob's free lists. */
  lemma ExampleIntersect()
    ensures Intersect([Interval(9, 10), Interval(11, 14), Interval(16, 18)], [Interval(10, 13), Interval(15, 18)])
      == [Interval(11, 13), Interval(16, 18)]
  {
    var a := [Interval(9, 10), Interval(11, 14), Interval(16, 18)];
    var b := [Interval(10, 13), Interval(15, 18)];
    assert b[..1] == [Interval(10, 13)] && b[..0] == [];
    assert a[..2] == [Interval(9, 10), Interval(11, 14)] && a[..1] == [Interval(9, 10)] && a[..0] == [];
    assert MeetEach(Interval(9, 10), b[..1]) == [];
    assert MeetEach(Interval(9, 10), b) == [];
    assert MeetEach(Interval(11, 14), b[..1]) == [Interval(11, 13)];
    assert MeetEach(Interval(11, 14), b) == [Interval(11, 13)];
    assert MeetEach(Interval(16, 18), b[..1]) == [];
    assert MeetEach(Interval(16, 18), b) == [Interval(16, 18)];
    assert Intersect(a[..1], b) == [];
    assert Intersect(a[..2], b) == [Interval(11, 13)];
  }

  /** The example's common intervals as `find_common_free_time` prints them, and not as 10:00-13:00. */
  lemma ExampleFormatted()
    ensures FormatAll([Interval(11, 13), Interval(16, 18)]) == ["11:00\U{2013}13:00", "16:00\U{2013}18:00"]
    ensures FormatAll([Interval(11, 13), Interval(16, 18)]) != ["10:00\U{2013}13:00", "16:00\U{2013}18:00"]
  {
    var c := [Interval(11, 13), Interval(16, 18)];
    assert c[..1] == [Interval(11, 13)];
    FormatExampleSlots();
    var f := FormatAll(c);
    assert f == [FormatSlot(c[0]), FormatSlot(c[1])];
    if f == ["10:00\U{2013}13:00", "16:00\U{2013}18:00"] {
      FormatSlotRoundTrip(Interval(10, 13));
      FormatSlotInjective(Interval(11, 13), Interval(10, 13));
    }
  }

  /**
   * On the example store (main.py:16-19) the common time is 11-13 and 16-18;
   * 10-13 is not common, since Alice is busy from 10 to 11.
   */
  lemma ExampleCommonFreeTime()
    ensures CommonFree(ExampleStore(), ["Alice", "Bob"]) == [Interval(11, 13), Interval(16, 18)]
    ensures FormatAll(CommonFree(ExampleStore(), ["Alice", "Bob"])) == ["11:00\U{2013}13:00", "16:00\U{2013}18:00"]
    ensures FormatAll(CommonFree(ExampleStore(), ["Alice", "Bob"])) != ["10:00\U{2013}13:00", "16:00\U{2013}18:00"]
  {
    ExampleCommonIntervals();
    ExampleFormatted();
  }

  lemma ExampleCommonIntervals()
    ensures CommonFree(ExampleStore(), ["Alice", "Bob"]) == [Interval(11, 13), Interval(16, 18)]
  {
    ExampleFreeSlots();
    ExampleIntersect();
    CommonFreeOfTwo(ExampleStore(), "Alice", "Bob");
  }

  /** With two members the fold is a single intersection step. */
  lemma CommonFreeOfTwo(store: Store, a: string, b: string)
    ensures CommonFree(store, [a, b]) == Intersect(FreeSlots(Lookup(store, a)), FreeSlots(Lookup(store, b)))
  {
    var lists := FreeListsOf(store, [a, b]);
    assert lists[0] == FreeSlots(Lookup(store, a));
    assert lists[1] == FreeSlots(Lookup(store, b));
    assert |lists| == 2;
    assert Fold(lists[..1]) == lists[0];
    assert Fold(lists) == Intersect(lists[0], lists[1]);
  }

  /** A person the store has never seen is free for the whole working day. */
  lemma UnknownPersonIsFreeAllDay(store: Store, name: string)
    requires name !in store
    ensures CommonFree(store, [name]) == [Interval(9, 18)]
    ensures FormatAll(CommonFree(store, [name])) == ["9:00\U{2013}18:00"]
  {
    CommonFreeOfOne(store, name);
    FreeSlotsOfEmpty();
    FormatExampleSlots();
    assert FormatAll([Interval(9, 18)]) == [FormatSlot(Interval(9, 18))];
  }

  /** A member busy for exactly the working day leaves no common time, and the announcement is the fixed reply. */
  lemma FullyBusyMemberGetsNoCommonTime(store: Store, members: seq<string>, k: int)
    requires 0 <= k < |members|
    requires Lookup(store, members[k]) == [Interval(WORK_START, WORK_END)]
    ensures CommonFree(store, members) == []
    ensures Announcement(members, FormatAll(CommonFree(store, members))) == NO_COMMON_TIME
  {
    var day := [Interval(WORK_START, WORK_END)];
    SortOfSorted(day);
    assert day[1..] == [];
    assert FreeSlots(day) == Gaps(WORK_END, []) == [];
    CommonFreeWithFullyBusyMember(store, members, k);
  }

  /**
   * After-hours busy time is not clamped, so "busy for the whole day" does
   * not always mean "no free time": a later after-hours entry opens a free
   * interval past the end of the working day.
   */
  lemma FullyBusyWithAfterHoursEntry()
    ensures FreeSlots([Interval(9, 18), Interval(20, 21)]) == [Interval(18, 20)]
  {
    assert Sort([Interval(9, 18), Interval(20, 21)]) == [Interval(9, 18), Interval(20, 21)];
  }

  /**
   * Outside the working day a member with no busy time does change the
   * common list: an after-hours entry gives a free interval past WORK_END,
   * and the newcomer's free list, which ends at WORK_END, cuts it short.
   */
  lemma IdleMemberCutsAfterHours()
    ensures CommonFree(map["X" := [Interval(19, 20)]], ["X"]) == [Interval(9, 19)]
    ensures CommonFree(map["X" := [Interval(19, 20)]], ["X", "New"]) == [Interval(9, 18)]
  {
    var store := map["X" := [Interval(19, 20)]];
    CommonFreeOfOne(store, "X");
    CommonFreeOfTwo(store, "X", "New");
    assert Lookup(store, "X") == [Interval(19, 20)];
    assert Lookup(store, "New") == [];
    var busy := [Interval(19, 20)];
    assert Sort(busy) == busy;
    assert busy[1..] == [];
    assert FreeSlots(busy) == [Interval(9, 19)];
    FreeSlotsOfEmpty();
    var a := [Interval(9, 19)];
    var b := [Interval(9, 18)];
    assert a[..0] == [] && b[..0] == [];
    assert MeetEach(Interval(9, 19), b) == [Interval(9, 18)];
    assert Intersect(a, b) == [Interval(9, 18)];
  }

  /**
   * What a query finds for `member` once `names` have been queried: the
   * sorted list when the member was queried already, the stored one
   * otherwise; sorting it again gives the sorted original, and either way
   * the free list is that of the original list.
   */
  lemma QueriedLookup(store: Store, names: seq<string>, member: string)
    ensures Sort(Lookup(SortedEntries(store, names), member)) == Sort(Lookup(store, member))
    ensures FreeSlots(Lookup(SortedEntries(store, names), member)) == FreeSlots(Lookup(store, member))
    ensures (member in SortedEntries(store, names)) == (member in store)
  {
    SortIdempotent(Lookup(store, member));
  }

  /** Querying one more member extends the free lists by that member's and sorts that member's stored list. */
  lemma QueryStep(store: Store, members: seq<string>, i: int)
    requires 0 <= i < |members|
    ensures FreeListsOf(store, members[..i + 1]) == FreeListsOf(store, members[..i]) + [FreeSlots(Lookup(store, members[i]))]
    ensures SortedEntries(store, members[..i + 1]) ==
      if members[i] in store then SortedEntries(store, members[..i])[members[i] := Sort(store[members[i]])]
      else SortedEntries(store, members[..i])
  {
    assert members[..i + 1][..i] == members[..i];
    assert members[..i + 1] == members[..i] + [members[i]];
    SortedEntriesStep(store, members[..i], members[i]);
  }

  lemma SortedEntriesStep(store: Store, names: seq<string>, member: string)
    ensures SortedEntries(store, names + [member]) ==
      if member in store then SortedEntries(store, names)[member := Sort(store[member])]
      else SortedEntries(store, names)
  {
    var after := SortedEntries(store, names + [member]);
    var before := SortedEntries(store, names);
    if member in store {
      var expected := before[member := Sort(store[member])];
      forall k | k in store ensures after[k] == expected[k] {
        InAppend(names, member, k);
      }
      assert after.Keys == expected.Keys;
    } else {
      forall k | k in store ensures after[k] == before[k] {
        InAppend(names, member, k);
      }
      assert after.Keys == before.Keys;
    }
  }

  lemma InAppend(names: seq<string>, member: string, k: string)
    ensures (k in names + [member]) == (k in names || k == member)
  {
  }

  /** The in-memory schedule store and the tools that use it (main.py:21-110). */
  class ScheduleStore {
    /** `SCHEDULES`: each person's busy list (main.py:21). */
    var schedules: Store

    /** The store starts empty (main.py:21). */
    constructor ()
      ensures schedules == map[]
    {
      schedules := map[];
    }

    /**
     * `add_busy_time` (main.py:31-40): creates the person's list if absent
     * and appends the pair, with no validation or clamping; nobody else's
     * list changes.
     */
    method AddBusyTime(name: string, start: int, end: int) returns (confirmation: string)
      modifies this
      ensures schedules == old(schedules)[name := Lookup(old(schedules), name) + [Interval(start, end)]]
      ensures schedules.Keys == old(schedules).Keys + {name}
      ensures forall other :: other != name ==> Lookup(schedules, other) == Lookup(old(schedules), other)
      ensures confirmation == Confirmation(name, start, end)
    {
      if name !in schedules {
        schedules := schedules[name := []];
      }
      schedules := schedules[name := schedules[name] + [Interval(start, end)]];
      confirmation := Confirmation(name, start, end);
    }

    /**
     * `find_common_free_time` (main.py:66-90). It returns one formatted
     * string per common interval, in order; as a side effect the stored list
     * of every queried person who has one is sorted in place, and unknown
     * members are not added. `members` must be non-empty, since the first
     * free list is taken unconditionally (main.py:78).
     */
    method FindCommonFreeTime(members: seq<string>) returns (slots: seq<string>)
      requires |members| > 0
      modifies this
      ensures slots == FormatAll(CommonFree(old(schedules), members))
      ensures schedules == SortedEntries(old(schedules), members)
    {
      var allFree: seq<seq<Interval>> := [];
      var i := 0;
      while i < |members|
        invariant 0 <= i <= |members|
        invariant allFree == FreeListsOf(old(schedules), members[..i])
        invariant schedules == SortedEntries(old(schedules), members[..i])
      {
        QueriedLookup(old(schedules), members[..i], members[i]);
        var free := ResolveMember(members[i]);
        QueryStep(old(schedules), members, i);
        allFree := allFree + [free];
        i := i + 1;
      }
      assert members[..i] == members;
      var common := IntersectAll(allFree);
      slots := FormatAll(common);
    }

    /**
     * One member's turn in the loop of main.py:72-75: look the busy list up
     * with an empty default, sort it in place (so the stored list, if there
     * is one, ends up sorted) and resolve its free list.
     */
    method ResolveMember(member: string) returns (free: seq<Interval>)
      modifies this
      ensures free == FreeSlots(Lookup(old(schedules), member))
      ensures schedules ==
        if member in old(schedules) then old(schedules)[member := Sort(old(schedules)[member])]
        else old(schedules)
    {
      var stored := Lookup(schedules, member);
      var busy := new Interval[|stored|](k requires 0 <= k < |stored| => stored[k]);
      assert busy[..] == stored;
      free := GetFreeSlots(busy);
      if member in schedules {
        schedules := schedules[member := busy[..]];
      }
    }

    /**
     * `meeting_message` (main.py:97-110): the fixed reply exactly when no
     * interval is common, otherwise the announcement of the common slots.
     * It runs the query, so it sorts the queried lists like it.
     */
    method MeetingMessage(members: seq<string>) returns (message: string)
      requires |members| > 0
      modifies this
      ensures message == Announcement(members, FormatAll(CommonFree(old(schedules), members)))
      ensures message == NO_COMMON_TIME <==> CommonFree(old(schedules), members) == []
      ensures schedules == SortedEntries(old(schedules), members)
    {
      var freeSlots := FindCommonFreeTime(members);
      message := Announcement(members, freeSlots);
    }
  }

  /** The store of the comment at main.py:16-19, built through the tools, then queried. */
  method ExampleSession()
  {
    var store := new ScheduleStore();
    var added := store.AddBusyTime("Alice", 10, 11);
    added := store.AddBusyTime("Alice", 14, 16);
    assert store.schedules["Alice"] == [Interval(10, 11), Interval(14, 16)];
    added := store.AddBusyTime("Bob", 9, 10);
    added := store.AddBusyTime("Bob", 13, 15);
    assert store.schedules["Bob"] == [Interval(9, 10), Interval(13, 15)];
    assert store.schedules == ExampleStore();
    var slots := store.FindCommonFreeTime(["Alice", "Bob"]);
    ExampleCommonFreeTime();
    assert slots == ["11:00\U{2013}13:00", "16:00\U{2013}18:00"];
  }
}
