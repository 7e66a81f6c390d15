/** What the planner and recovery keep together: over any history of passes, restarts and runs
    inserted by others. */
module SlotProperties {
  import opened Domain
  import opened Schedules
  import opened SlotMaterialisation

  /** `Plan` and `Recover` are one process's share of a pass; `Other` is a run of another origin. */
  datatype Event =
    | Plan(p: nat, sched: Schedule, now: int, horizon: int, fault: Option<nat>)
    | Recover(p: nat, sched: Schedule, now: int, maxSlots: int, fault: Option<nat>)
    | Other(row: Row)

  function Step(rows: seq<Row>, e: Event): seq<Row> {
    match e
    case Plan(p, sched, now, horizon, fault) => PlanSpec(rows, p, sched, now, horizon, fault)
    case Recover(p, sched, now, maxSlots, fault) => RecoverSpec(rows, p, sched, now, maxSlots, fault)
    case Other(row) => if row in rows then rows else rows + [row]
  }

  function After(rows: seq<Row>, events: seq<Event>): seq<Row>
    decreases |events|
  {
    if events == [] then rows else After(Step(rows, events[0]), events[1..])
  }

  lemma AfterCons(rows: seq<Row>, e: Event, rest: seq<Event>)
    ensures After(rows, [e] + rest) == After(Step(rows, e), rest)
  {
    assert ([e] + rest)[1..] == rest;
  }

  /** Passes happen in the order of a clock that never runs backwards. */
  ghost predicate Chronological(events: seq<Event>, clock: int)
    decreases |events|
  {
    events == [] ||
    match events[0]
    case Other(row) => !IsAutomatic(row) && Chronological(events[1..], clock)
    case e => clock <= e.now && Chronological(events[1..], e.now)
  }

  // ---------------------------------------------------------------- a whole pass

  /** One process's share in a planner pass. */
  function PlanShare(p: CronProcess, now: int, horizon: int, fault: Option<nat>): seq<Event> {
    if p.schedule.Some? then [Plan(p.id, p.schedule.value, now, horizon, fault)] else []
  }

  /** The share of each process in one planner pass; `faults` as in `PlanProcess`. */
  function PassEvents(procs: seq<CronProcess>, now: int, horizon: int, faults: seq<Option<nat>>): seq<Event>
    requires |faults| == |procs|
    decreases |procs|
  {
    if procs == [] then []
    else PlanShare(procs[0], now, horizon, faults[0]) + PassEvents(procs[1..], now, horizon, faults[1..])
  }

  function RecoveryShare(p: CronProcess, now: int, fault: Option<nat>): seq<Event> {
    if IsRecovered(p) then [Recover(p.id, p.schedule.value, now, p.maxRecoverySlots, fault)] else []
  }

  /** The same for one start-up recovery. */
  function RecoveryEvents(procs: seq<CronProcess>, now: int, faults: seq<Option<nat>>): seq<Event>
    requires |faults| == |procs|
    decreases |procs|
  {
    if procs == [] then []
    else RecoveryShare(procs[0], now, faults[0]) + RecoveryEvents(procs[1..], now, faults[1..])
  }

  method PlanPass(table: RunTable, procs: seq<CronProcess>, now: int, horizon: int, faults: seq<Option<nat>>)
    requires |faults| == |procs|
    modifies table
    ensures table.rows == After(old(table.rows), PassEvents(procs, now, horizon, faults))
  {
    for i := 0 to |procs|
      invariant After(table.rows, PassEvents(procs[i..], now, horizon, faults[i..]))
             == After(old(table.rows), PassEvents(procs, now, horizon, faults))
    {
      assert procs[i..][1..] == procs[i + 1..] && faults[i..][1..] == faults[i + 1..];
      ghost var rest := PassEvents(procs[i + 1..], now, horizon, faults[i + 1..]);
      if procs[i].schedule.None? {
        assert [] + rest == rest;
        continue;
      }
      AfterCons(table.rows, Plan(procs[i].id, procs[i].schedule.value, now, horizon, faults[i]), rest);
      PlanProcess(table, procs[i].id, procs[i].schedule.value, now, horizon, faults[i]);
    }
  }

  method RecoveryPass(table: RunTable, procs: seq<CronProcess>, now: int, faults: seq<Option<nat>>)
    requires |faults| == |procs|
    modifies table
    ensures table.rows == After(old(table.rows), RecoveryEvents(procs, now, faults))
  {
    for i := 0 to |procs|
      invariant After(table.rows, RecoveryEvents(procs[i..], now, faults[i..]))
             == After(old(table.rows), RecoveryEvents(procs, now, faults))
    {
      assert procs[i..][1..] == procs[i + 1..] && faults[i..][1..] == faults[i + 1..];
      ghost var rest := RecoveryEvents(procs[i + 1..], now, faults[i + 1..]);
      assert [] + rest == rest;
      if IsRecovered(procs[i]) {
        AfterCons(table.rows, Recover(procs[i].id, procs[i].schedule.value, now, procs[i].maxRecoverySlots, faults[i]), rest);
      }
      var created := RecoverProcess(table, procs[i], now, faults[i]);
    }
  }

  /** A planner pass has a share for each process with a usable schedule, and no others. */
  lemma {:induction false} PassMember(procs: seq<CronProcess>, now: int, horizon: int, faults: seq<Option<nat>>, e: Event)
    requires |faults| == |procs|
    ensures e in PassEvents(procs, now, horizon, faults) <==>
              exists i :: 0 <= i < |procs| && procs[i].schedule.Some?
                && e == Plan(procs[i].id, procs[i].schedule.value, now, horizon, faults[i])
    decreases |procs|
  {
    if procs != [] {
      PassMember(procs[1..], now, horizon, faults[1..], e);
      if i :| 0 <= i < |procs| && procs[i].schedule.Some? && e == Plan(procs[i].id, procs[i].schedule.value, now, horizon, faults[i]) {
        assert i > 0 ==> procs[1..][i - 1] == procs[i] && faults[1..][i - 1] == faults[i];
      }
    }
  }

  /** A start-up has one for each process that recovers misses, has a usable schedule, and belongs to an
      active workspace. */
  lemma {:induction false} RecoveryMember(procs: seq<CronProcess>, now: int, faults: seq<Option<nat>>, e: Event)
    requires |faults| == |procs|
    ensures e in RecoveryEvents(procs, now, faults) <==>
              exists i :: 0 <= i < |procs| && procs[i].executeMisses && procs[i].schedule.Some? && procs[i].workspaceActive
                && e == Recover(procs[i].id, procs[i].schedule.value, now, procs[i].maxRecoverySlots, faults[i])
    decreases |procs|
  {
    if procs != [] {
      RecoveryMember(procs[1..], now, faults[1..], e);
      if i :| 0 <= i < |procs| && procs[i].executeMisses && procs[i].schedule.Some? && procs[i].workspaceActive
              && e == Recover(procs[i].id, procs[i].schedule.value, now, procs[i].maxRecoverySlots, faults[i]) {
        assert i > 0 ==> procs[1..][i - 1] == procs[i] && faults[1..][i - 1] == faults[i];
      }
    }
  }

  /** The shares come in the order of the processes. */
  lemma {:induction false} PassInOrder(procs: seq<CronProcess>, more: seq<CronProcess>, now: int, horizon: int,
                                       faults: seq<Option<nat>>, others: seq<Option<nat>>)
    requires |faults| == |procs| && |others| == |more|
    ensures PassEvents(procs + more, now, horizon, faults + others)
         == PassEvents(procs, now, horizon, faults) + PassEvents(more, now, horizon, others)
    decreases |procs|
  {
    if procs == [] {
      assert procs + more == more && faults + others == others;
    } else {
      var all, every := procs + more, faults + others;
      assert all[1..] == procs[1..] + more && every[1..] == faults[1..] + others && all[0] == procs[0] && every[0] == faults[0];
      PassInOrder(procs[1..], more, now, horizon, faults[1..], others);
    }
  }

  lemma {:induction false} RecoveryInOrder(procs: seq<CronProcess>, more: seq<CronProcess>, now: int,
                                           faults: seq<Option<nat>>, others: seq<Option<nat>>)
    requires |faults| == |procs| && |others| == |more|
    ensures RecoveryEvents(procs + more, now, faults + others) == RecoveryEvents(procs, now, faults) + RecoveryEvents(more, now, others)
    decreases |procs|
  {
    if procs == [] {
      assert procs + more == more && faults + others == others;
    } else {
      assert (procs + more)[1..] == procs[1..] + more && (faults + others)[1..] == faults[1..] + others;
      RecoveryInOrder(procs[1..], more, now, faults[1..], others);
    }
  }

  // ---------------------------------------------------------------- slot uniqueness

  /** No process has two automatic runs for one instant, whichever loop made them. */
  ghost predicate SlotsUnique(rows: seq<Row>) {
    forall i, j :: 0 <= i < j < |rows| && IsAutomatic(rows[i]) && IsAutomatic(rows[j]) && rows[i].process == rows[j].process
                   ==> rows[i].at != rows[j].at
  }

  /** One row of process `p` and origin `origin` for each slot. */
  function RowsAt(p: nat, origin: Origin, slots: seq<int>): (rows: seq<Row>)
    ensures |rows| == |slots|
    ensures forall i :: 0 <= i < |rows| ==> rows[i] == Row(p, slots[i], origin)
    decreases |slots|
  {
    if slots == [] then [] else [Row(p, slots[0], origin)] + RowsAt(p, origin, slots[1..])
  }

  /** How many of the slots recovery takes. */
  function Taken(missed: seq<int>, room: int, fault: Option<nat>): nat {
    var n := Min(|missed|, Max(0, room));
    if fault.Some? then Min(n, fault.value) else n
  }

  lemma {:induction false} ToRecoverTakesPrefix(p: nat, missed: seq<int>, room: int, fault: Option<nat>)
    ensures ToRecover(p, missed, room, fault) == RowsAt(p, Recovery, missed[..Taken(missed, room, fault)])
    decreases |missed|
  {
    var n := Taken(missed, room, fault);
    if missed != [] && room > 0 && fault != Some(0) {
      ToRecoverTakesPrefix(p, missed[1..], room - 1, OneLess(fault));
      assert missed[..n][1..] == missed[1..][..n - 1];
    }
  }

  ghost predicate RecoveryInPast(rows: seq<Row>, clock: int) {
    forall i :: 0 <= i < |rows| && rows[i].origin == Recovery ==> rows[i].at < clock
  }

  lemma {:induction false} InsertMissingKeepsUnique(rows: seq<Row>, p: nat, slots: seq<int>, clock: int)
    requires SlotsUnique(rows) && RecoveryInPast(rows, clock)
    requires forall i :: 0 <= i < |slots| ==> clock <= slots[i]
    ensures SlotsUnique(InsertMissing(rows, p, slots)) && RecoveryInPast(InsertMissing(rows, p, slots), clock)
    decreases |slots|
  {
    if slots != [] {
      var r := Row(p, slots[0], Cron);
      var rows' := if r in rows then rows else rows + [r];
      forall i | 0 <= i < |rows| && r !in rows && IsAutomatic(rows[i]) && rows[i].process == p ensures rows[i].at != r.at {
        assert rows[i] in rows;
      }
      InsertMissingKeepsUnique(rows', p, slots[1..], clock);
    }
  }

  lemma PlanKeepsUnique(rows: seq<Row>, p: nat, sched: Schedule, now: int, horizon: int, fault: Option<nat>)
    requires SlotsUnique(rows) && RecoveryInPast(rows, now)
    ensures var rows' := PlanSpec(rows, p, sched, now, horizon, fault);
            SlotsUnique(rows') && RecoveryInPast(rows', now)
  {
    var all := Slots(sched, now, now + horizon);
    SlotsExact(sched, now, now + horizon);
    InsertMissingKeepsUnique(rows, p, Prefix(all, fault), now);
  }

  lemma AppendKeepsUnique(rows: seq<Row>, p: nat, slots: seq<int>, last: int, clock: int)
    requires SlotsUnique(rows) && RecoveryInPast(rows, clock) && Increasing(slots) && NoneAfter(rows, p, last)
    requires forall i :: 0 <= i < |slots| ==> last < slots[i] < clock
    ensures var rows' := rows + RowsAt(p, Recovery, slots);
            SlotsUnique(rows') && RecoveryInPast(rows', clock)
  {
    IncreasingPairs(slots);
  }

  lemma RecoverKeepsUnique(rows: seq<Row>, p: nat, sched: Schedule, now: int, maxSlots: int, fault: Option<nat>)
    requires SlotsUnique(rows) && RecoveryInPast(rows, now)
    ensures var rows' := RecoverSpec(rows, p, sched, now, maxSlots, fault);
            SlotsUnique(rows') && RecoveryInPast(rows', now)
  {
    var last := LastAt(rows, p);
    var missed := MissedSlots(rows, p, sched, now);
    if last.Some? {
      SlotsExact(sched, last.value + 1, now - 1);
      ToRecoverTakesPrefix(p, missed, maxSlots, fault);
      IncreasingPart(missed, 0, Taken(missed, maxSlots, fault));
      AppendKeepsUnique(rows, p, missed[..Taken(missed, maxSlots, fault)], last.value, now);
    }
  }

  /** Slot uniqueness: planner and recovery each look only at runs of their own origin, and still
      never give a process two automatic runs for one slot. */
  lemma {:induction false} SlotUniqueness(rows: seq<Row>, events: seq<Event>, clock: int)
    requires SlotsUnique(rows) && RecoveryInPast(rows, clock) && Chronological(events, clock)
    ensures SlotsUnique(After(rows, events))
    decreases |events|
  {
    if events != [] {
      match events[0]
      case Plan(p, sched, now, horizon, fault) =>
        PlanKeepsUnique(rows, p, sched, now, horizon, fault);
        SlotUniqueness(PlanSpec(rows, p, sched, now, horizon, fault), events[1..], now);
      case Recover(p, sched, now, maxSlots, fault) =>
        RecoverKeepsUnique(rows, p, sched, now, maxSlots, fault);
        SlotUniqueness(RecoverSpec(rows, p, sched, now, maxSlots, fault), events[1..], now);
      case Other(row) =>
        SlotUniqueness(Step(rows, Other(row)), events[1..], clock);
    }
  }

  // ---------------------------------------------------------------- planner exactness

  /** The slots of `slots` without a cron run, in order. */
  function Lacking(rows: seq<Row>, p: nat, slots: seq<int>): seq<int>
    decreases |slots|
  {
    if slots == [] then []
    else (if Row(p, slots[0], Cron) in rows then [] else [slots[0]]) + Lacking(rows, p, slots[1..])
  }

  lemma {:induction false} LackingIgnoresOthers(rows: seq<Row>, p: nat, slots: seq<int>, at: int)
    requires forall i :: 0 <= i < |slots| ==> slots[i] != at
    ensures Lacking(rows + [Row(p, at, Cron)], p, slots) == Lacking(rows, p, slots)
    decreases |slots|
  {
    if slots != [] {
      assert slots[0] != at;
      LackingIgnoresOthers(rows, p, slots[1..], at);
    }
  }

  lemma {:induction false} InsertMissingExact(rows: seq<Row>, p: nat, slots: seq<int>)
    requires Increasing(slots)
    ensures InsertMissing(rows, p, slots) == rows + RowsAt(p, Cron, Lacking(rows, p, slots))
    decreases |slots|
  {
    if slots != [] {
      var r := Row(p, slots[0], Cron);
      IncreasingPart(slots, 1, |slots|);
      assert slots[1..|slots|] == slots[1..];
      if r in rows {
        InsertMissingExact(rows, p, slots[1..]);
      } else {
        InsertMissingExact(rows + [r], p, slots[1..]);
        IncreasingPairs(slots);
        LackingIgnoresOthers(rows, p, slots[1..], slots[0]);
        var rest := Lacking(rows, p, slots[1..]);
        assert RowsAt(p, Cron, [slots[0]] + rest) == [r] + RowsAt(p, Cron, rest);
      }
    } else {
      assert RowsAt(p, Cron, []) == [];
    }
  }

  lemma {:induction false} LackingMembers(rows: seq<Row>, p: nat, slots: seq<int>, s: int)
    ensures s in Lacking(rows, p, slots) <==> s in slots && Row(p, s, Cron) !in rows
    decreases |slots|
  {
    if slots != [] {
      LackingMembers(rows, p, slots[1..], s);
    }
  }

  lemma {:induction false} InsertMissingCovers(rows: seq<Row>, p: nat, slots: seq<int>, s: int)
    requires s in slots
    ensures Row(p, s, Cron) in InsertMissing(rows, p, slots)
    decreases |slots|
  {
    var r := Row(p, slots[0], Cron);
    var rows' := if r in rows then rows else rows + [r];
    if s == slots[0] {
      InsertMissingGrows(rows', p, slots[1..], r);
    } else {
      InsertMissingCovers(rows', p, slots[1..], s);
    }
  }

  lemma {:induction false} NothingMissing(rows: seq<Row>, p: nat, slots: seq<int>)
    requires forall i :: 0 <= i < |slots| ==> Row(p, slots[i], Cron) in rows
    ensures InsertMissing(rows, p, slots) == rows
    decreases |slots|
  {
    if slots != [] {
      NothingMissing(rows, p, slots[1..]);
    }
  }

  /** Planner exactness: a pass appends one cron run for each slot it found lacking, in order, and touches
      nothing else; when the database fails after so many slots, only for those. */
  lemma PlannerExact(rows: seq<Row>, p: nat, sched: Schedule, now: int, horizon: int, fault: Option<nat>)
    ensures var slots := Slots(sched, now, now + horizon);
            var handled := if fault.Some? then slots[..Min(fault.value, |slots|)] else slots;
            PlanSpec(rows, p, sched, now, horizon, fault) == rows + RowsAt(p, Cron, Lacking(rows, p, handled))
  {
    var slots := Slots(sched, now, now + horizon);
    SlotsIncrease(sched, now, now + horizon);
    IncreasingPart(slots, 0, |Prefix(slots, fault)|);
    assert slots[0..|Prefix(slots, fault)|] == Prefix(slots, fault);
    InsertMissingExact(rows, p, Prefix(slots, fault));
    assert fault.Some? && fault.value > |slots| ==> slots[..Min(fault.value, |slots|)] == slots;
  }

  /** What is found lacking: exactly the slots from now to the horizon that have no cron run. */
  lemma LackingExact(rows: seq<Row>, p: nat, sched: Schedule, now: int, horizon: int, s: int)
    ensures s in Lacking(rows, p, Slots(sched, now, now + horizon))
       <==> now <= s <= now + horizon && IsSlot(sched, s) && Row(p, s, Cron) !in rows
  {
    SlotsMember(sched, now, now + horizon, s);
    LackingMembers(rows, p, Slots(sched, now, now + horizon), s);
  }

  lemma PlanLeavesSlot(rows: seq<Row>, p: nat, sched: Schedule, now: int, horizon: int, s: int)
    requires now <= s <= now + horizon && IsSlot(sched, s)
    ensures Row(p, s, Cron) in PlanSpec(rows, p, sched, now, horizon, None)
  {
    SlotsMember(sched, now, now + horizon, s);
    InsertMissingCovers(rows, p, Slots(sched, now, now + horizon), s);
  }

  /** A repeated pass creates nothing. */
  lemma PlannerIdempotent(rows: seq<Row>, p: nat, sched: Schedule, now: int, horizon: int)
    ensures var rows' := PlanSpec(rows, p, sched, now, horizon, None);
            PlanSpec(rows', p, sched, now, horizon, None) == rows'
  {
    var slots := Slots(sched, now, now + horizon);
    var rows' := InsertMissing(rows, p, slots);
    forall i | 0 <= i < |slots| ensures Row(p, slots[i], Cron) in rows' {
      InsertMissingCovers(rows, p, slots, slots[i]);
    }
    NothingMissing(rows', p, slots);
  }

  // ---------------------------------------------------------------- no gaps

  lemma {:induction false} InsertMissingGrows(rows: seq<Row>, p: nat, slots: seq<int>, r: Row)
    requires r in rows
    ensures r in InsertMissing(rows, p, slots)
    decreases |slots|
  {
    if slots != [] {
      var c := Row(p, slots[0], Cron);
      InsertMissingGrows(if c in rows then rows else rows + [c], p, slots[1..], r);
    }
  }

  lemma {:induction false} AfterGrows(rows: seq<Row>, events: seq<Event>, r: Row)
    requires r in rows
    ensures r in After(rows, events)
    decreases |events|
  {
    if events != [] {
      var e := events[0];
      if e.Plan? {
        InsertMissingGrows(rows, e.p, Prefix(Slots(e.sched, e.now, e.now + e.horizon), e.fault), r);
      }
      AfterGrows(Step(rows, e), events[1..], r);
    }
  }

  lemma {:induction false} PassLeavesSlot(rows: seq<Row>, events: seq<Event>, e: Event, s: int)
    requires e in events && e.Plan? && e.fault.None?
    requires e.now <= s <= e.now + e.horizon && IsSlot(e.sched, s)
    ensures Row(e.p, s, Cron) in After(rows, events)
    decreases |events|
  {
    if events[0] == e {
      PlanLeavesSlot(rows, e.p, e.sched, e.now, e.horizon, s);
      AfterGrows(Step(rows, e), events[1..], Row(e.p, s, Cron));
    } else {
      PassLeavesSlot(Step(rows, events[0]), events[1..], e, s);
    }
  }

  lemma {:induction false} WindowOf(passes: seq<int>, horizon: int, s: int) returns (i: nat)
    requires |passes| > 0
    requires forall k :: 0 <= k < |passes| - 1 ==> passes[k + 1] - passes[k] <= horizon
    requires passes[0] <= s <= passes[|passes| - 1] + horizon
    ensures i < |passes| && passes[i] <= s <= passes[i] + horizon
  {
    if s <= passes[0] + horizon {
      i := 0;
    } else {
      i := WindowOf(passes[1..], horizon, s);
      i := i + 1;
    }
  }

  /** No gaps: when error-free passes over a process come at most one horizon apart, then whatever
      else happens in between, every slot from the first pass to the last one's horizon has exactly
      one automatic run, and it is a cron run. */
  lemma NoGaps(events: seq<Event>, clock: int, p: nat, sched: Schedule, horizon: int, passes: seq<int>, s: int)
    requires Chronological(events, clock)
    requires |passes| > 0
    requires forall k :: 0 <= k < |passes| ==> Plan(p, sched, passes[k], horizon, None) in events
    requires forall k :: 0 <= k < |passes| - 1 ==> passes[k + 1] - passes[k] <= horizon
    requires passes[0] <= s <= passes[|passes| - 1] + horizon && IsSlot(sched, s)
    ensures var rows := After([], events);
            exists i :: 0 <= i < |rows| && rows[i] == Row(p, s, Cron)
              && forall j :: 0 <= j < |rows| && j != i && rows[j].process == p && IsAutomatic(rows[j]) ==> rows[j].at != s
  {
    var k := WindowOf(passes, horizon, s);
    PassLeavesSlot([], events, Plan(p, sched, passes[k], horizon, None), s);
    SlotUniqueness([], events, clock);
    var rows := After([], events);
    var i :| 0 <= i < |rows| && rows[i] == Row(p, s, Cron);
    assert forall j :: 0 <= j < |rows| && j != i && rows[j].process == p && IsAutomatic(rows[j]) ==> rows[j].at != s;
  }

  // ---------------------------------------------------------------- passes over many processes

  /** What happens to the table: planner passes, start-ups, and runs inserted by others. */
  datatype Call =
    | PlannerPass(procs: seq<CronProcess>, now: int, horizon: int, faults: seq<Option<nat>>)
    | StartUp(procs: seq<CronProcess>, now: int, faults: seq<Option<nat>>)
    | Insert(row: Row)

  /** In the order of a clock that never runs backwards. */
  ghost predicate InTime(calls: seq<Call>, clock: int)
    decreases |calls|
  {
    calls == [] ||
    match calls[0]
    case PlannerPass(procs, now, horizon, faults) => |faults| == |procs| && clock <= now && InTime(calls[1..], now)
    case StartUp(procs, now, faults) => |faults| == |procs| && clock <= now && InTime(calls[1..], now)
    case Insert(row) => !IsAutomatic(row) && InTime(calls[1..], clock)
  }

  /** The table after the calls, as the contracts of `PlanPass` and `RecoveryPass` give it. */
  ghost function RowsAfter(rows: seq<Row>, calls: seq<Call>, clock: int): seq<Row>
    requires InTime(calls, clock)
    decreases |calls|
  {
    if calls == [] then rows
    else match calls[0]
      case PlannerPass(procs, now, horizon, faults) => RowsAfter(After(rows, PassEvents(procs, now, horizon, faults)), calls[1..], now)
      case StartUp(procs, now, faults) => RowsAfter(After(rows, RecoveryEvents(procs, now, faults)), calls[1..], now)
      case Insert(row) => RowsAfter(if row in rows then rows else rows + [row], calls[1..], clock)
  }

  lemma {:induction false} AfterConcat(rows: seq<Row>, first: seq<Event>, rest: seq<Event>)
    ensures After(rows, first + rest) == After(After(rows, first), rest)
    decreases |first|
  {
    if first == [] {
      assert first + rest == rest;
    } else {
      assert (first + rest)[1..] == first[1..] + rest;
      AfterConcat(Step(rows, first[0]), first[1..], rest);
    }
  }

  /** All shares of one pass belong to its instant. */
  ghost predicate AllAt(events: seq<Event>, now: int) {
    forall i :: 0 <= i < |events| ==> !events[i].Other? && events[i].now == now
  }

  lemma {:induction false} ChronologicalSooner(events: seq<Event>, clock: int, later: int)
    requires Chronological(events, later) && clock <= later
    ensures Chronological(events, clock)
    decreases |events|
  {
    if events != [] && events[0].Other? {
      ChronologicalSooner(events[1..], clock, later);
    }
  }

  lemma {:induction false} ChronologicalConcat(first: seq<Event>, rest: seq<Event>, clock: int, now: int)
    requires AllAt(first, now) && clock <= now && Chronological(rest, now)
    ensures Chronological(first + rest, clock)
    decreases |first|
  {
    if first == [] {
      assert first + rest == rest;
      ChronologicalSooner(rest, clock, now);
    } else {
      assert (first + rest)[1..] == first[1..] + rest;
      ChronologicalConcat(first[1..], rest, now, now);
    }
  }

  lemma {:induction false} SharesAt(procs: seq<CronProcess>, now: int, horizon: int, faults: seq<Option<nat>>)
    requires |faults| == |procs|
    ensures AllAt(PassEvents(procs, now, horizon, faults), now) && AllAt(RecoveryEvents(procs, now, faults), now)
  {
    forall e | e in PassEvents(procs, now, horizon, faults) ensures !e.Other? && e.now == now {
      PassMember(procs, now, horizon, faults, e);
    }
    forall e | e in RecoveryEvents(procs, now, faults) ensures !e.Other? && e.now == now {
      RecoveryMember(procs, now, faults, e);
    }
  }

  /** The calls as one history of shares, with every share of every planner pass in it. */
  lemma {:induction false} SharesOf(rows: seq<Row>, calls: seq<Call>, clock: int) returns (events: seq<Event>)
    requires InTime(calls, clock)
    ensures Chronological(events, clock) && RowsAfter(rows, calls, clock) == After(rows, events)
    ensures forall c: Call, e: Event ::
              c in calls && c.PlannerPass? && |c.faults| == |c.procs| && e in PassEvents(c.procs, c.now, c.horizon, c.faults) ==> e in events
    decreases |calls|
  {
    if calls == [] {
      events := [];
    } else {
      match calls[0]
      case PlannerPass(procs, now, horizon, faults) =>
        var shares := PassEvents(procs, now, horizon, faults);
        var rest := SharesOf(After(rows, shares), calls[1..], now);
        SharesAt(procs, now, horizon, faults);
        ChronologicalConcat(shares, rest, clock, now);
        AfterConcat(rows, shares, rest);
        events := shares + rest;
      case StartUp(procs, now, faults) =>
        var shares := RecoveryEvents(procs, now, faults);
        var rest := SharesOf(After(rows, shares), calls[1..], now);
        SharesAt(procs, now, 0, faults);
        ChronologicalConcat(shares, rest, clock, now);
        AfterConcat(rows, shares, rest);
        events := shares + rest;
      case Insert(row) =>
        var rest := SharesOf(Step(rows, Other(row)), calls[1..], clock);
        AfterCons(rows, Other(row), rest);
        events := [Other(row)] + rest;
    }
  }

  /** A planner pass at `now` that lists the process and meets no error on it. */
  ghost predicate Covers(c: Call, p: nat, sched: Schedule, now: int, horizon: int) {
    && c.PlannerPass? && c.now == now && c.horizon == horizon && |c.faults| == |c.procs|
    && exists i :: 0 <= i < |c.procs| && c.procs[i].id == p && c.procs[i].schedule == Some(sched) && c.faults[i] == None
  }

  /** No gaps over whole passes: a process that error-free passes list at most one horizon apart has exactly
      one automatic run for every slot from the first of them to the last one's horizon, and it is a cron
      run.  The other processes of the passes, their errors, other passes, start-ups and inserts do not
      matter. */
  lemma NoGapsOverPasses(calls: seq<Call>, clock: int, p: nat, sched: Schedule, horizon: int, passes: seq<int>, s: int)
    requires InTime(calls, clock) && |passes| > 0
    requires forall k :: 0 <= k < |passes| ==> exists c :: c in calls && Covers(c, p, sched, passes[k], horizon)
    requires forall k :: 0 <= k < |passes| - 1 ==> passes[k + 1] - passes[k] <= horizon
    requires passes[0] <= s <= passes[|passes| - 1] + horizon && IsSlot(sched, s)
    ensures var rows := RowsAfter([], calls, clock);
            exists i :: 0 <= i < |rows| && rows[i] == Row(p, s, Cron)
              && forall j :: 0 <= j < |rows| && j != i && rows[j].process == p && IsAutomatic(rows[j]) ==> rows[j].at != s
  {
    var events := SharesOf([], calls, clock);
    forall k | 0 <= k < |passes| ensures Plan(p, sched, passes[k], horizon, None) in events {
      var c :| c in calls && Covers(c, p, sched, passes[k], horizon);
      PassMember(c.procs, c.now, c.horizon, c.faults, Plan(p, sched, passes[k], horizon, None));
    }
    NoGaps(events, clock, p, sched, horizon, passes, s);
  }

  /** No process ever has two automatic runs for one instant, whatever passes and start-ups there were. */
  lemma UniqueOverPasses(calls: seq<Call>, clock: int)
    requires InTime(calls, clock)
    ensures var rows := RowsAfter([], calls, clock);
            forall i, j :: 0 <= i < j < |rows| && rows[i].process == rows[j].process
                && rows[i].origin in {Cron, Recovery} && rows[j].origin in {Cron, Recovery}
              ==> rows[i].at != rows[j].at
  {
    var events := SharesOf([], calls, clock);
    SlotUniqueness([], events, clock);
  }

  lemma {:induction false} LastAtIgnores(rows: seq<Row>, more: seq<Row>, p: nat)
    requires forall i :: 0 <= i < |more| ==> more[i].process != p
    ensures LastAt(rows + more, p) == LastAt(rows, p)
    decreases |more|
  {
    if more == [] {
      assert rows + more == rows;
    } else {
      assert (rows + more)[..|rows + more| - 1] == rows + more[..|more| - 1];
      LastAtIgnores(rows, more[..|more| - 1], p);
    }
  }

  /** The slots a start-up at `now` makes up for, for this process. */
  function MadeUp(rows: seq<Row>, p: CronProcess, now: int, fault: Option<nat>): seq<int> {
    if !p.executeMisses || !p.workspaceActive || p.schedule.None? then []
    else
      var missed := MissedSlots(rows, p.id, p.schedule.value, now);
      missed[..Taken(missed, p.maxRecoverySlots, fault)]
  }

  /** The i-th process makes the row up. */
  predicate MakesUp(rows: seq<Row>, procs: seq<CronProcess>, now: int, faults: seq<Option<nat>>, r: Row, i: nat)
    requires |faults| == |procs|
  {
    i < |procs| && r.process == procs[i].id && r.origin == Recovery && r.at in MadeUp(rows, procs[i], now, faults[i])
  }

  lemma LaterMakesUp(rows: seq<Row>, procs: seq<CronProcess>, now: int, faults: seq<Option<nat>>, made: seq<Row>, r: Row, i: nat)
    requires |faults| == |procs| && i + 1 < |procs| && forall k :: 0 <= k < |made| ==> made[k].process != procs[i + 1].id
    ensures MakesUp(rows + made, procs[1..], now, faults[1..], r, i) == MakesUp(rows, procs, now, faults, r, i + 1)
  {
    LastAtIgnores(rows, made, procs[i + 1].id);
    assert procs[1..][i] == procs[i + 1] && faults[1..][i] == faults[i + 1];
  }

  /** The rows after the first share, and what the later ones make up, are the same rows in all. */
  lemma SharesAddUp(rows: seq<Row>, procs: seq<CronProcess>, now: int, faults: seq<Option<nat>>, r: Row)
    requires |faults| == |procs| && procs != [] && forall i, j :: 0 <= i < j < |procs| ==> procs[i].id != procs[j].id
    ensures var rows' := rows + RowsAt(procs[0].id, Recovery, MadeUp(rows, procs[0], now, faults[0]));
            ((r in rows' || exists i: nat :: MakesUp(rows', procs[1..], now, faults[1..], r, i))
             <==> r in rows || exists i: nat :: MakesUp(rows, procs, now, faults, r, i))
  {
    var made := RowsAt(procs[0].id, Recovery, MadeUp(rows, procs[0], now, faults[0]));
    assert r in made <==> MakesUp(rows, procs, now, faults, r, 0);
    if i: nat :| MakesUp(rows, procs, now, faults, r, i) {
      if i > 0 {
        LaterMakesUp(rows, procs, now, faults, made, r, i - 1);
      }
    }
    if i: nat :| MakesUp(rows + made, procs[1..], now, faults[1..], r, i) {
      LaterMakesUp(rows, procs, now, faults, made, r, i);
    }
  }

  /** A start-up over many processes adds, to what is there, exactly each one's own missed slots up to its
      cap or error. */
  lemma {:induction false} StartUpExact(rows: seq<Row>, procs: seq<CronProcess>, now: int, faults: seq<Option<nat>>, r: Row)
    requires |faults| == |procs| && forall i, j :: 0 <= i < j < |procs| ==> procs[i].id != procs[j].id
    ensures r in After(rows, RecoveryEvents(procs, now, faults)) <==>
              r in rows || exists i: nat :: MakesUp(rows, procs, now, faults, r, i)
    decreases |procs|
  {
    if procs != [] {
      FirstShare(rows, procs, now, faults);
      SharesAddUp(rows, procs, now, faults, r);
      StartUpExact(rows + RowsAt(procs[0].id, Recovery, MadeUp(rows, procs[0], now, faults[0])), procs[1..], now, faults[1..], r);
    }
  }

  lemma {:induction false} FirstShare(rows: seq<Row>, procs: seq<CronProcess>, now: int, faults: seq<Option<nat>>)
    requires |faults| == |procs| && procs != []
    ensures After(rows, RecoveryEvents(procs, now, faults))
         == After(rows + RowsAt(procs[0].id, Recovery, MadeUp(rows, procs[0], now, faults[0])), RecoveryEvents(procs[1..], now, faults[1..]))
  {
    var rest := RecoveryEvents(procs[1..], now, faults[1..]);
    if IsRecovered(procs[0]) {
      var sched := procs[0].schedule.value;
      AfterCons(rows, Recover(procs[0].id, sched, now, procs[0].maxRecoverySlots, faults[0]), rest);
      ToRecoverTakesPrefix(procs[0].id, MissedSlots(rows, procs[0].id, sched, now), procs[0].maxRecoverySlots, faults[0]);
    } else {
      assert rows + RowsAt(procs[0].id, Recovery, []) == rows && [] + rest == rest;
    }
  }

  // ---------------------------------------------------------------- recovery takes a prefix

  lemma NewRows(rows: seq<Row>, p: nat, slots: seq<int>, last: int)
    requires Increasing(slots) && NoneAfter(rows, p, last)
    requires forall i :: 0 <= i < |slots| ==> last < slots[i]
    ensures forall k :: 0 <= k < |slots| ==> Row(p, slots[k], Recovery) !in rows + RowsAt(p, Recovery, slots[..k])
  {
    IncreasingPairs(slots);
  }

  lemma SlotsBetween(sched: Schedule, last: int, now: int)
    ensures Increasing(Slots(sched, last + 1, now - 1))
    ensures forall s :: s in Slots(sched, last + 1, now - 1) <==> last < s < now && IsSlot(sched, s)
  {
    SlotsIncrease(sched, last + 1, now - 1);
    var slots := Slots(sched, last + 1, now - 1);
    forall s ensures s in slots <==> last < s < now && IsSlot(sched, s) {
      SlotsMember(sched, last + 1, now - 1, s);
    }
  }

  /** The missed slots are exactly those strictly between the process's latest run and now. */
  lemma MissedExact(rows: seq<Row>, p: nat, sched: Schedule, now: int, last: int)
    requires LastAt(rows, p) == Some(last)
    ensures Increasing(MissedSlots(rows, p, sched, now))
    ensures forall s :: s in MissedSlots(rows, p, sched, now) <==> last < s < now && IsSlot(sched, s)
  {
    SlotsBetween(sched, last, now);
    assert MissedSlots(rows, p, sched, now) == Slots(sched, last + 1, now - 1);
  }

  /** Recovery appends one run for each of the earliest missed slots, in order and as many as the cap
      allows, or as the database lets it handle. */
  lemma RecoveryTakesPrefix(rows: seq<Row>, p: nat, sched: Schedule, now: int, maxSlots: int, fault: Option<nat>)
    ensures var missed := MissedSlots(rows, p, sched, now);
            var allowed := if maxSlots < 0 then 0 else if maxSlots < |missed| then maxSlots else |missed|;
            RecoverSpec(rows, p, sched, now, maxSlots, fault)
            == rows + RowsAt(p, Recovery, missed[..if fault.Some? && fault.value < allowed then fault.value else allowed])
  {
    ToRecoverTakesPrefix(p, MissedSlots(rows, p, sched, now), maxSlots, fault);
  }

  /** The existence test inside the recovery loop is never true: no missed slot has a run when its
      turn comes, whatever runs the table holds. */
  lemma RecoveryTestNeverTrue(rows: seq<Row>, p: nat, sched: Schedule, now: int)
    ensures var missed := MissedSlots(rows, p, sched, now);
            forall k :: 0 <= k < |missed| ==> Row(p, missed[k], Recovery) !in rows + RowsAt(p, Recovery, missed[..k])
  {
    var last := LastAt(rows, p);
    if last.Some? {
      SlotsExact(sched, last.value + 1, now - 1);
      NewRows(rows, p, MissedSlots(rows, p, sched, now), last.value);
    }
  }
}
