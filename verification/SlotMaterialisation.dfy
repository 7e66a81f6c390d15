/** The two loops that turn cron slots into run rows: the planner's periodic pass
    (internal/planner/planner.go) and the start-up recovery of missed slots
    (internal/recovery/recovery.go).  They share only the table of runs. */
module SlotMaterialisation {
  import opened Domain
  import opened Schedules

  const MINUTE := 60_000_000_000  // nanoseconds

  datatype Origin = Cron | FixedDelay | Manual | OneTime | Recovery | Dependency | Replay

  /** A run row, reduced to the columns under the table's uniqueness constraint. */
  datatype Row = Row(process: nat, at: int, origin: Origin)

  predicate IsAutomatic(r: Row) {
    r.origin == Cron || r.origin == Recovery
  }

  /** An enabled cron process.  `schedule` is None when it is missing or does not parse; `workspaceActive`
      is false when its workspace is restricted or suspended. */
  datatype CronProcess = CronProcess(id: nat, schedule: Option<Schedule>, executeMisses: bool, workspaceActive: bool, maxRecoverySlots: int)

  /** Does start-up recovery look at the process at all? */
  predicate IsRecovered(p: CronProcess) {
    p.executeMisses && p.schedule.Some? && p.workspaceActive
  }

  // ---------------------------------------------------------------- specification

  /** All of `s`, or its first `limit` elements when the database fails after `limit` of them. */
  function Prefix<T>(s: seq<T>, limit: Option<nat>): (r: seq<T>)
    ensures r <= s
  {
    if limit.Some? && limit.value <= |s| then s[..limit.value] else s
  }

  /** One pass over `slots`: each that has no cron run gets one. */
  function InsertMissing(rows: seq<Row>, p: nat, slots: seq<int>): seq<Row>
    decreases |slots|
  {
    if slots == [] then rows
    else
      var r := Row(p, slots[0], Cron);
      InsertMissing(if r in rows then rows else rows + [r], p, slots[1..])
  }

  /** What is left of a limit after one slot. */
  function OneLess(limit: Option<nat>): Option<nat> {
    if limit.Some? && limit.value > 0 then Some(limit.value - 1) else limit
  }

  function PlanSpec(rows: seq<Row>, p: nat, sched: Schedule, now: int, horizon: int, fault: Option<nat>): seq<Row> {
    InsertMissing(rows, p, Prefix(Slots(sched, now, now + horizon), fault))
  }

  /** No run of `p` is scheduled after `at`. */
  ghost predicate NoneAfter(rows: seq<Row>, p: nat, at: int) {
    forall i :: 0 <= i < |rows| && rows[i].process == p ==> rows[i].at <= at
  }

  /** The latest `scheduled_at` among the runs of `p`, whatever their origin. */
  function LastAt(rows: seq<Row>, p: nat): (last: Option<int>)
    ensures last.None? <==> forall i :: 0 <= i < |rows| ==> rows[i].process != p
    ensures last.Some? ==> NoneAfter(rows, p, last.value)
    ensures last.Some? ==> exists i :: 0 <= i < |rows| && rows[i].process == p && rows[i].at == last.value
  {
    if rows == [] then None
    else
      var front, r := rows[..|rows| - 1], rows[|rows| - 1];
      assert forall i :: 0 <= i < |front| ==> front[i] == rows[i];
      var last := LastAt(front, p);
      if r.process != p then last
      else if last.None? then Some(r.at)
      else Some(Max(last.value, r.at))
  }

  function MissedSlots(rows: seq<Row>, p: nat, sched: Schedule, now: int): seq<int> {
    var last := LastAt(rows, p);
    if last.None? then [] else Slots(sched, last.value + 1, now - 1)
  }

  /** The runs recovery makes for the slots `missed`: one each, in order, until the cap or the fault. */
  function ToRecover(p: nat, missed: seq<int>, room: int, fault: Option<nat>): seq<Row>
    decreases |missed|
  {
    if missed == [] || room <= 0 || fault == Some(0) then []
    else [Row(p, missed[0], Recovery)] + ToRecover(p, missed[1..], room - 1, OneLess(fault))
  }

  function RecoverSpec(rows: seq<Row>, p: nat, sched: Schedule, now: int, maxSlots: int, fault: Option<nat>): seq<Row> {
    rows + ToRecover(p, MissedSlots(rows, p, sched, now), maxSlots, fault)
  }

  // ---------------------------------------------------------------- the loops

  /** The table of runs.  `Create` fails exactly on a violated uniqueness constraint. */
  class RunTable {
    var rows: seq<Row>

    constructor ()
      ensures rows == []
    {
      rows := [];
    }

    method Exists(r: Row) returns (found: bool)
      ensures found == (r in rows)
    {
      found := r in rows;
    }

    method Create(r: Row) returns (ok: bool)
      modifies this
      ensures ok == (r !in old(rows))
      ensures rows == if ok then old(rows) + [r] else old(rows)
    {
      ok := r !in rows;
      if ok {
        rows := rows + [r];
      }
    }
  }

  lemma PrefixStep<T>(first: T, rest: seq<T>, limit: Option<nat>)
    ensures Prefix([first] + rest, limit) == if limit == Some(0) then [] else [first] + Prefix(rest, OneLess(limit))
  {
  }

  /** The slots the planner has yet to handle once it has passed every slot before `from`. */
  function StillToPlan(sched: Schedule, from: int, now: int, end: int, left: Option<nat>): seq<int> {
    Prefix(Slots(sched, Max(from, now), end), left)
  }

  /** One turn of the planner's loop, seen on the work that remains. */
  lemma PlanStep(sched: Schedule, from: int, now: int, end: int, left: Option<nat>)
    ensures var next := sched(from - 1);
            StillToPlan(sched, from, now, end, left)
            == if next > end || (next >= now && left == Some(0)) then []
               else if next < now then StillToPlan(sched, next + 1, now, end, left)
               else [next] + StillToPlan(sched, next + 1, now, end, OneLess(left))
  {
    var next := sched(from - 1);
    if now <= next {
      SlotsSkip(sched, from, Max(from, now), end);
      if next <= end {
        PrefixStep(next, Slots(sched, next + 1, end), left);
      }
    } else if next > end {
      assert sched(now - 1) > now - 1;
    }
  }

  lemma InsertMissingStep(rows: seq<Row>, p: nat, first: int, rest: seq<int>)
    ensures var r := Row(p, first, Cron);
            InsertMissing(rows, p, [first] + rest) == InsertMissing(if r in rows then rows else rows + [r], p, rest)
  {
    assert ([first] + rest)[1..] == rest;
  }

  /** What the planner's loop keeps: a pass over what is left leads to the goal. */
  ghost predicate Planning(goal: seq<Row>, rows: seq<Row>, p: nat, sched: Schedule, from: int, now: int, end: int, left: Option<nat>) {
    goal == InsertMissing(rows, p, StillToPlan(sched, from, now, end, left))
  }

  /** What each turn of the loop makes of that. */
  lemma Planned(goal: seq<Row>, rows: seq<Row>, p: nat, sched: Schedule, from: int, now: int, end: int, left: Option<nat>)
    requires Planning(goal, rows, p, sched, from, now, end, left)
    ensures var next := sched(from - 1); var r := Row(p, next, Cron);
            if next > end || (next >= now && left == Some(0)) then rows == goal
            else if next < now then Planning(goal, rows, p, sched, next + 1, now, end, left)
            else Planning(goal, if r in rows then rows else rows + [r], p, sched, next + 1, now, end, OneLess(left))
  {
    PlanStep(sched, from, now, end, left);
    InsertMissingStep(rows, p, sched(from - 1), StillToPlan(sched, sched(from - 1) + 1, now, end, OneLess(left)));
  }

  /** The planner's inner loop for one process.  `fault` is the number of slots handled before
      a query or insert fails; the loop then gives up on this process. */
  method PlanProcess(table: RunTable, p: nat, sched: Schedule, now: int, horizon: int, fault: Option<nat>)
    modifies table
    ensures table.rows == PlanSpec(old(table.rows), p, sched, now, horizon, fault)
  {
    var end := now + horizon;
    var next := sched(now - MINUTE);
    ghost var from := now - MINUTE + 1;
    var left := fault;
    ghost var goal := PlanSpec(table.rows, p, sched, now, horizon, fault);
    while next <= end
      invariant next == sched(from - 1)
      invariant Planning(goal, table.rows, p, sched, from, now, end, left)
      decreases end - next
    {
      Planned(goal, table.rows, p, sched, from, now, end, left);
      if next < now {
        from := next + 1;
        next := sched(next);
        continue;
      }
      if left == Some(0) {
        return;
      }
      left := OneLess(left);
      from := next + 1;
      var found := table.Exists(Row(p, next, Cron));
      if found {
        next := sched(next);
        continue;
      }
      var ok := table.Create(Row(p, next, Cron));
      if !ok {
        break;
      }
      next := sched(next);
    }
    Planned(goal, table.rows, p, sched, from, now, end, left);
  }

  /** The runs recovery has yet to make once it has passed every slot before `from`. */
  function StillToRecover(p: nat, sched: Schedule, from: int, now: int, room: int, left: Option<nat>): seq<Row> {
    ToRecover(p, Slots(sched, from, now - 1), room, left)
  }

  /** One turn of the recovery loop, seen on the work that remains. */
  lemma RecoverStep(p: nat, sched: Schedule, from: int, now: int, room: int, left: Option<nat>)
    ensures var next := sched(from - 1);
            StillToRecover(p, sched, from, now, room, left)
            == if next >= now || room <= 0 || left == Some(0) then []
               else [Row(p, next, Recovery)] + StillToRecover(p, sched, next + 1, now, room - 1, OneLess(left))
  {
    var next := sched(from - 1);
    if next < now {
      var rest := Slots(sched, next + 1, now - 1);
      assert Slots(sched, from, now - 1) == [next] + rest && ([next] + rest)[1..] == rest;
    }
  }

  /** The recovery loop for one process; `created` counts the runs it inserts. */
  method RecoverProcess(table: RunTable, p: CronProcess, now: int, fault: Option<nat>) returns (created: nat)
    modifies table
    ensures table.rows == if p.executeMisses && p.schedule.Some? && p.workspaceActive
                          then RecoverSpec(old(table.rows), p.id, p.schedule.value, now, p.maxRecoverySlots, fault)
                          else old(table.rows)
    ensures created == |table.rows| - |old(table.rows)|
  {
    created := 0;
    if !p.executeMisses || p.schedule.None? {
      return;
    }
    if !p.workspaceActive {
      return;
    }
    var last := LastAt(table.rows, p.id);
    if last.None? {
      assert ToRecover(p.id, [], p.maxRecoverySlots, fault) == [];
      return;
    }
    created := RecoverFrom(table, p.id, p.schedule.value, last.value, now, p.maxRecoverySlots, fault);
  }

  /** What the recovery loop keeps: the table, and what is left to insert, make up the goal. */
  ghost predicate Recovering(goal: seq<Row>, rows: seq<Row>, p: nat, from: int, rest: seq<Row>) {
    goal == rows + rest && NoneAfter(rows, p, from - 1)
  }

  /** A slot after every run of `p` is not in the table, and then is the latest. */
  lemma Recovered(goal: seq<Row>, rows: seq<Row>, p: nat, from: int, at: int, rest: seq<Row>)
    requires from <= at && Recovering(goal, rows, p, from, [Row(p, at, Recovery)] + rest)
    ensures Row(p, at, Recovery) !in rows && Recovering(goal, rows + [Row(p, at, Recovery)], p, at + 1, rest)
  {
  }

  method RecoverFrom(table: RunTable, p: nat, sched: Schedule, last: int, now: int, maxSlots: int, fault: Option<nat>) returns (created: nat)
    requires NoneAfter(table.rows, p, last)
    modifies table
    ensures table.rows == old(table.rows) + ToRecover(p, Slots(sched, last + 1, now - 1), maxSlots, fault)
    ensures created == |table.rows| - |old(table.rows)|
  {
    ghost var from := last + 1;
    ghost var goal := table.rows + StillToRecover(p, sched, from, now, maxSlots, fault);
    created := 0;
    var next := sched(last);
    var left := fault;
    while next < now && created < maxSlots
      invariant next == sched(from - 1)
      invariant Recovering(goal, table.rows, p, from, StillToRecover(p, sched, from, now, maxSlots - created, left))
      invariant created == |table.rows| - |old(table.rows)|
      decreases now - next
    {
      RecoverStep(p, sched, from, now, maxSlots - created, left);
      if left == Some(0) {
        break;
      }
      left := OneLess(left);
      Recovered(goal, table.rows, p, from, next, StillToRecover(p, sched, next + 1, now, maxSlots - created - 1, left));
      from := next + 1;
      var found := table.Exists(Row(p, next, Recovery));
      assert !found;  // the in-loop existence test never fires
      if !found {
        var ok := table.Create(Row(p, next, Recovery));
        if !ok {
          break;
        }
        created := created + 1;
      }
      next := sched(next);
    }
    RecoverStep(p, sched, from, now, maxSlots - created, left);
  }
}
