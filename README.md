# Schedule manager availability engine

This project models the availability engine of a small schedule-manager server, `main.py`, in Dafny and proves properties of the model. The engine has four parts:

- **Schedule store.** An in-memory map from a person's name to a list of busy `(start, end)` hour pairs (`SCHEDULES`). `add_busy_time` appends to it.
- **Free-time resolver.** `get_free_slots` sorts a busy list in place by tuple order. It then sweeps a cursor from `WORK_START = 9` and emits the gap before every busy interval that starts after the cursor. Last, it emits the tail of the day up to `WORK_END = 18`.
- **Multi-party intersector.** `find_common_free_time` resolves every member's free list, looking unknown members up with the default `[]`. It folds the lists left to right, keeping each non-empty pairwise overlap `(max starts, min ends)`. It prints each surviving interval as `"<s>:00–<e>:00"`, with an en dash.
- **Announcement.** `meeting_message` returns a fixed reply when no slot is common, and otherwise a template that names the members and the slots.

The files:

- `intervals.dfy`: the `Interval` value, the working-day constants, and the predicates the properties use. These include `InSome` (an hour lies in some interval, read half-open), `Separated`, `IsFreeList` and `CoveredBy`.
- `sorting.dfy`: the in-place insertion sort standing in for `list.sort()`. It is proved equal to a reference sort. Sorted permutations are unique, so any correct sort gives the same list, Python's included.
- `resolver.dfy`: the cursor sweep as a loop, proved against the recursive gap function `Gaps`, and `get_free_slots` on an array.
- `intersector.dfy`: the three nested loops of the fold, proved against the left-recursive `MeetEach`, `Intersect` and `Fold`.
- `presentation.dfy`: `str(int)`, the slot format with its parser, `", ".join` and the announcement.
- `schedule.dfy`: the store as a class whose field `schedules` its methods update. It also holds the query-level lemmas and the example store from the comment at main.py:16-19.

Where the intended behaviour and the code differ, the model follows the code:

- For the example store, the code yields `["11:00–13:00", "16:00–18:00"]`, not 10:00–13:00, because Alice is busy from 10 to 11.
- An empty intersection yields `[]`, not a "none found" element.
- Busy intervals are neither validated nor clamped to the working day. So a free interval can start or end after `WORK_END` (`FreeSlotsUnclamped`, `FullyBusyWithAfterHoursEntry`). An entry with start > end can make free intervals overlap (`FreeSlotsOfReversedEntry`).
- A member with no busy time is not neutral. Within the working day it leaves the others' common hours unchanged (`CommonFreeWithIdleMember`). But its free list ends at `WORK_END`, so it cuts short a free interval that an after-hours entry extended past the end of the day (`IdleMemberCutsAfterHours`).
- An empty member list is an error in the code (`all_free_slots[0]`), so it is a precondition here. The model does not invent a result for it.

## Model

| member | source | states |
|---|---|---|
| Schedule.ScheduleStore.constructor | main.py:21 | the store starts as the empty map |
| Schedule.ScheduleStore.AddBusyTime | main.py:31-40 | the person's list becomes the old list, or `[]` if absent, with `(start, end)` appended; the key set gains the name; every other person's list is unchanged; the reply is the confirmation text with the formatted slot |
| Schedule.ScheduleStore.ResolveMember | main.py:72-75 | the member's free list is that of the stored busy list, or of `[]` for an unknown member; the stored list, if any, is replaced by its sorted version and no key is added |
| Schedule.ScheduleStore.FindCommonFreeTime | main.py:66-90 | for a non-empty member list, the result is one formatted string per common interval, in order; afterwards each queried stored list is sorted, and nobody is added or otherwise changed |
| Schedule.ScheduleStore.MeetingMessage | main.py:97-110 | the reply is the announcement of the formatted common slots; it is the fixed "no common time" text exactly when the common list is empty; the query's sorting side effect is stated |
| Schedule.Lookup | main.py:73 | `SCHEDULES.get(member, [])`: the stored list, or `[]` for an unknown person; its use is stated by `ResolveMember` and `UnknownPersonIsFreeAllDay` |
| Schedule.FreeListsOf | main.py:70-75 | the list `all_free_slots`, one free list per member in the given order; `FindCommonFreeTime` proves its loop builds exactly this list |
| Schedule.CommonFree | main.py:70-88 | the common intervals of the members, the fold over their free lists; its properties are carried by the `CommonFree…` lemmas below |
| Schedule.SortedEntries | main.py:47-73 | the store after a query keeps the same keys and each list's multiset; queried lists are sorted; the others are untouched |
| Schedule.CommonFreeIffFreeForAll | main.py:70-88 | an hour lies in a common interval exactly when it lies in a free interval of every member |
| Schedule.CommonFreeIffNobodyBusy | main.py:46-88 | for any busy lists, reversed or empty entries included, an hour of the working day is common exactly when no member is busy at that hour |
| Schedule.CommonFreeOrderIndependent | main.py:72-88 | any two non-empty member lists naming the same people, in any order or with repeats, have the same common hours |
| Schedule.CommonFreeWithIdleMember | main.py:72-88 | within the working day, adding a member with no busy time leaves the common hours unchanged |
| Schedule.IdleMemberCutsAfterHours | main.py:51-57 | outside the working day it does not: with `X` busy 19-20, `X` alone has 9-19 in common, and `X` with a newcomer has 9-18 |
| Schedule.CommonFreeShape | main.py:84-87 | every common interval is non-empty and lies within a free interval of every member |
| Schedule.CommonFreeIsFreeList | main.py:51-88 | with non-empty busy intervals, the common list is strictly increasing and pairwise disjoint |
| Schedule.CommonFreeWithFullyBusyMember | main.py:80-88 | a member with no free time empties the common list |
| Schedule.CommonFreeOfOne | main.py:78-80 | with one member, the common list is that member's free list |
| Schedule.CommonFreeOfTwo | main.py:78-88 | with two members, the common list is one intersection step of their free lists |
| Schedule.ExampleFreeSlots | main.py:16-19 | in the example store, Alice is free at 9-10, 11-14 and 16-18, and Bob at 10-13 and 15-18 |
| Schedule.ExampleIntersect | main.py:81-88 | the fold step on those two free lists gives 11-13 and 16-18 |
| Schedule.ExampleCommonFreeTime | main.py:16-19 | on the example store the common time is 11-13 and 16-18, printed as `11:00–13:00` and `16:00–18:00` and not as `10:00–13:00` |
| Schedule.UnknownPersonIsFreeAllDay | main.py:73 | a person the store has never seen is free from 9 to 18, printed `9:00–18:00` |
| Schedule.FullyBusyMemberGetsNoCommonTime | main.py:103-104 | a member busy for exactly the working day leaves no common time, and the reply is the fixed text |
| Schedule.FullyBusyWithAfterHoursEntry | main.py:51-57 | busy 9-18 plus an after-hours entry 20-21 still leaves 18-20 free, because nothing is clamped |
| Schedule.QueriedLookup | main.py:73-74 | re-resolving a list already sorted by an earlier query gives the free list of the original list, and queries add no key |
| Schedule.ExampleSession | main.py:16-19 | the example store built through the tool methods, and queried, gives the two example slots |
| Sorting.SortInPlace | main.py:47 | the array afterwards holds the sorted arrangement of its old contents |
| Sorting.Sort | main.py:47 | the reference sort returns a sorted permutation of its input |
| Sorting.SortedPermutationUnique | main.py:47 | two sorted arrangements of the same multiset are equal |
| Sorting.SortIdempotent | main.py:47 | sorting a sorted list changes nothing |
| Sorting.InsertSorted | main.py:47 | inserting into a sorted list keeps it sorted |
| Sorting.InsertAt | main.py:47 | one pass of the in-place sort extends the sorted prefix by one element, keeps the multiset, and leaves every element after it in place |
| Resolver.FreeSlots | main.py:46-59 | the value `get_free_slots` returns: the sweep over the sorted busy list; its properties are carried by `FreeSlotsBounds`, `FreeSlotsWithinDay`, `FreeSlotsIsFreeList` and `FreeSlotsPointwise` |
| Resolver.Gaps | main.py:51-57 | every gap the sweep emits is non-empty and starts at or after the cursor |
| Resolver.Sweep | main.py:48-59 | the loop returns exactly the gaps from `WORK_START` over the busy list |
| Resolver.GetFreeSlots | main.py:46-59 | the argument is left sorted in place, and the result is the free list of its old contents |
| Resolver.FreeSlotsOfEmpty | main.py:49-57 | an empty busy list gives exactly `[(9, 18)]` |
| Resolver.FreeSlotsBounds | main.py:49-57 | every free interval has start < end and starts no earlier than `WORK_START` |
| Resolver.GapsEndBy | main.py:51-57 | when no busy interval starts after `WORK_END`, no gap ends after it |
| Resolver.FreeSlotsWithinDay | main.py:49-57 | when no busy interval starts after `WORK_END`, every free interval lies within the working day 9-18 |
| Resolver.GapsSeparated | main.py:51-57 | with non-empty busy intervals, in any order, each gap ends strictly before the next starts |
| Resolver.FreeSlotsIsFreeList | main.py:51-57 | with non-empty busy intervals, the free list is strictly increasing and pairwise disjoint |
| Resolver.GapsPointwise | main.py:51-57 | over a sorted busy list, reversed or empty entries included, an hour from the cursor to `WORK_END` is in a gap exactly when it is in no busy interval |
| Resolver.FreeSlotsPointwise | main.py:46-59 | for any busy list, reversed or empty entries included, an hour of the working day is free exactly when it is in no busy interval |
| Resolver.FreeSlotsOfSorted | main.py:47 | resolving an already sorted copy gives the same free list |
| Resolver.FreeSlotsUnclamped | main.py:51-57 | after-hours busy entries give free intervals past `WORK_END` |
| Resolver.FreeSlotsOfReversedEntry | main.py:51-57 | an unvalidated entry with start > end makes the free list overlap |
| Intersector.Meet | main.py:84-85 | the overlap `(max starts, min ends)` of two intervals lies within both; it may be empty |
| Intersector.MeetEach | main.py:83-87 | the inner loop: the non-empty overlaps of one interval with each interval of a list, in order; `MeetEachPointwise`, `MeetEachShape` and `MeetEachSeparated` carry its properties |
| Intersector.Intersect | main.py:81-88 | one fold step, `new_common`; `IntersectPointwise`, `IntersectShape` and `IntersectSeparated` carry its properties |
| Intersector.Fold | main.py:78-88 | the left fold from the first list; `FoldPointwise`, `FoldShape`, `FoldIsFreeList`, `FoldWithEmptyMember` and `FoldSingle` carry its properties |
| Intersector.IntersectAll | main.py:78-88 | the nested loops return exactly the left fold of one-step intersections |
| Intersector.MeetEachPointwise | main.py:83-87 | an hour is in some overlap of `a` with a list exactly when it is in `a` and in the list |
| Intersector.IntersectPointwise | main.py:81-88 | an hour is in the result of a fold step exactly when it is in both inputs |
| Intersector.MeetEachShape | main.py:84-87 | each overlap is non-empty, lies within `a` and within some interval of the list |
| Intersector.IntersectShape | main.py:81-88 | each interval of a fold step is non-empty and lies within an interval of each input |
| Intersector.MeetEachSeparated | main.py:83-87 | the overlaps of one interval with a separated list are separated |
| Intersector.IntersectSeparated | main.py:81-88 | a fold step of two separated lists is separated |
| Intersector.FoldPointwise | main.py:78-88 | an hour is in the folded list exactly when it is in every list |
| Intersector.FoldShape | main.py:78-88 | every folded interval lies within an interval of every list; it is non-empty when there are at least two lists, or when the only list has non-empty intervals |
| Intersector.EveryListSplit | main.py:80 | an hour is in every list exactly when it is in every list but the last, and in the last |
| Intersector.FoldIsFreeList | main.py:78-88 | folding free lists gives a free list |
| Intersector.IntersectWithEmpty | main.py:82-88 | intersecting with an empty list gives an empty list |
| Intersector.FoldWithEmptyMember | main.py:78-88 | if any list is empty, the fold is empty |
| Intersector.FoldSingle | main.py:78-80 | one list folds to itself, since the loop over the rest does not run |
| Presentation.DigitChar | main.py:40 | a digit value becomes the decimal digit character denoting it |
| Presentation.NatToString | main.py:40 | the decimal rendering is non-empty, all digits, with no leading zero |
| Presentation.NatToStringValue | main.py:40 | the rendered digits denote the number |
| Presentation.IntToString | main.py:40 | Python's `str(int)`; `IntToStringRoundTrip` proves that `ParseInt` reads it back |
| Presentation.IntToStringRoundTrip | main.py:40 | the rendering of an integer, with `-` for negatives, parses back to it and contains no colon |
| Presentation.UpToColon | main.py:90 | the text before the first colon is a prefix of the string |
| Presentation.FormatSlot | main.py:90 | one interval printed as `"<s>:00–<e>:00"`; `FormatSlotRoundTrip` and `FormatSlotInjective` carry its properties |
| Presentation.FormatSlotRoundTrip | main.py:90 | a formatted slot `"<s>:00–<e>:00"` parses back to its interval |
| Presentation.FormatSlotInjective | main.py:90 | distinct intervals print differently |
| Presentation.FormatAllInjective | main.py:90 | the formatted list determines the intervals, one string each, in order |
| Presentation.FormatAll | main.py:90 | the comprehension: one formatted string per interval, in order; `FormatAllInjective` shows it loses nothing |
| Presentation.Join | main.py:106-108 | Python's `sep.join(xs)`, used for the members and for the slots |
| Presentation.Confirmation | main.py:40 | the reply of `add_busy_time`, naming the person and the formatted slot; `AddBusyTime` returns exactly this |
| Presentation.Announcement | main.py:103-110 | the reply is the fixed text exactly when there are no slots |

## Left out

- The FastMCP server object, the tool and prompt decorators, and the transport started by `mcp.run` (main.py:9-11, 116-117). This is framework plumbing; the tools are modelled as methods of `Schedule.ScheduleStore`.
- knowledge_bot/bot.py is not part of this model. It is a separate bot that reads configuration from disk and has print-only mock tools.
- Concurrency and locking around the store: the code keeps single-threaded module state.
- `Schedule.ScheduleStore.ResolveMember`: the stored list is aliased and sorted in place in Python. The model copies it into a fresh array, sorts that array in place, and writes it back under the same key. The resulting store is the same, but the aliasing itself is not modelled.
- `Schedule.FreeListsOf` and `Presentation.FormatAll` are written as sequence comprehensions. The loop that builds `all_free_slots` is modelled in `FindCommonFreeTime`; the list comprehension of main.py:90 has no loop of its own.
- `Schedule.ScheduleStore.FindCommonFreeTime`: an empty member list makes the code fail at `all_free_slots[0]`. The model states a non-empty precondition instead of modelling that failure.
- `Schedule.ScheduleStore.MeetingMessage`: it calls the query, so it carries the same non-empty precondition.
- `Schedule.CommonFreeOrderIndependent`: order independence is proved hour by hour, not as equality of the common lists.
- Python's sort is Timsort; the model uses an insertion sort. The two agree on every input, since the sorted arrangement of a multiset is unique (`Sorting.SortedPermutationUnique`).
- Python integers are unbounded, like Dafny's, so no width or wrap-around is modelled.
