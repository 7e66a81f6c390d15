/** Cron schedules, seen through the one operation the planner and recovery use:
    the least slot strictly after a given instant. */
module Schedules {

  ghost predicate IsNext(next: int -> int) {
    && (forall t :: next(t) > t)
    && (forall t, u :: NoSlotBetween(next, t, u))
  }

  /** From any instant before the next slot, that slot is still the next. */
  ghost predicate NoSlotBetween(next: int -> int, t: int, u: int) {
    t <= u < next(t) ==> next(u) == next(t)
  }

  /** Instants are integers.  A schedule without any further slot is not a `Schedule`. */
  type Schedule = next: int -> int | IsNext(next) witness t => t + 1

  predicate IsSlot(sched: Schedule, s: int) {
    sched(s - 1) == s
  }

  /** The slots in the closed window from `from` to `end`, in order. */
  function Slots(sched: Schedule, from: int, end: int): seq<int>
    decreases end - from
  {
    var s := sched(from - 1);
    if s > end then [] else [s] + Slots(sched, s + 1, end)
  }

  ghost predicate Increasing(s: seq<int>) {
    forall i, j :: InOrder(s, i, j)
  }

  predicate InOrder(s: seq<int>, i: int, j: int) {
    0 <= i < j < |s| ==> s[i] < s[j]
  }

  lemma IncreasingCons(first: int, rest: seq<int>)
    requires Increasing(rest) && forall i :: 0 <= i < |rest| ==> first < rest[i]
    ensures Increasing([first] + rest)
  {
    forall i, j ensures InOrder([first] + rest, i, j) {
      assert InOrder(rest, i - 1, j - 1);
    }
  }

  lemma IncreasingPairs(s: seq<int>)
    requires Increasing(s)
    ensures forall i, j :: 0 <= i < j < |s| ==> s[i] < s[j]
  {
    forall i, j | 0 <= i < j < |s| ensures s[i] < s[j] {
      assert InOrder(s, i, j);
    }
  }

  lemma IncreasingPart(s: seq<int>, from: nat, to: nat)
    requires Increasing(s) && from <= to <= |s|
    ensures Increasing(s[from..to])
  {
    forall i, j ensures InOrder(s[from..to], i, j) {
      assert InOrder(s, from + i, from + j);
    }
  }

  /** `Slots` lists every slot of the window once, in increasing order, and nothing else. */
  lemma {:induction false} SlotsExact(sched: Schedule, from: int, end: int)
    ensures Increasing(Slots(sched, from, end))
    ensures forall i :: 0 <= i < |Slots(sched, from, end)| ==>
              from <= Slots(sched, from, end)[i] <= end && IsSlot(sched, Slots(sched, from, end)[i])
    ensures forall s {:trigger s in Slots(sched, from, end)} :: from <= s <= end && IsSlot(sched, s) ==> s in Slots(sched, from, end)
    decreases end - from
  {
    var first := sched(from - 1);
    assert IsSlot(sched, first) by { assert NoSlotBetween(sched, from - 1, first - 1); }
    forall s | from <= s < first ensures !IsSlot(sched, s) { assert NoSlotBetween(sched, from - 1, s - 1); }
    if first <= end {
      SlotsExact(sched, first + 1, end);
      IncreasingCons(first, Slots(sched, first + 1, end));
    }
  }

  lemma SlotsIncrease(sched: Schedule, from: int, end: int)
    ensures Increasing(Slots(sched, from, end))
  {
    SlotsExact(sched, from, end);
  }

  lemma {:induction false} SlotsMember(sched: Schedule, from: int, end: int, s: int)
    ensures s in Slots(sched, from, end) <==> from <= s <= end && IsSlot(sched, s)
    decreases end - from
  {
    var first := sched(from - 1);
    assert NoSlotBetween(sched, from - 1, first - 1) && NoSlotBetween(sched, from - 1, s - 1);
    if first <= end {
      SlotsMember(sched, first + 1, end, s);
      assert s in Slots(sched, from, end) <==> s == first || s in Slots(sched, first + 1, end);
    }
  }

  /** The slots from `from` on start at `next` when `next` is the first of them. */
  lemma SlotsSkip(sched: Schedule, from: int, to: int, end: int)
    requires from <= to <= sched(from - 1)
    ensures Slots(sched, from, end) == Slots(sched, to, end)
  {
    assert NoSlotBetween(sched, from - 1, to - 1);
  }
}
