/** Container placement on the servers of one workspace (internal/infra/provisioner.go). */
module Placement {
  import opened Domain

  datatype ServerState = Provisioning | Ready | Active | Idle | Destroying | Destroyed

  /** A row of workspace_servers: containers running, and the most it may run. */
  datatype Server = Server(state: ServerState, running: int, max: int)

  const DefaultMaxContainers := 4

  datatype Event =
    | Increment(k: nat)                                   // on server k, a least loaded one with room
    | Decrement(i: nat)
    | Ensure(needed: int, k: nat, created: bool, saved: bool)  // server k is the idle one picked, if any
    | MarkReady(i: nat)
    | Destroy(i: nat, deleted: bool)                      // did the cloud delete the machine in the end?
    | MarkIdle(i: nat)                                    // the idle check, for one row it listed before; a Destroy follows
    | DestroyWorkspace

  predicate IsOpen(s: Server) {
    s.state == Ready || s.state == Active
  }

  predicate HasRoom(s: Server) {
    IsOpen(s) && s.running < s.max
  }

  /** `ORDER BY containers_running LIMIT 1` among the servers with room. */
  predicate IsLeastLoaded(servers: seq<Server>, k: nat) {
    && k < |servers| && HasRoom(servers[k])
    && forall i :: 0 <= i < |servers| && HasRoom(servers[i]) ==> servers[k].running <= servers[i].running
  }

  /** Free slots, as EnsureCapacity adds them up. */
  function Available(servers: seq<Server>): int {
    if servers == [] then 0
    else Available(servers[..|servers| - 1]) + (var s := servers[|servers| - 1]; if IsOpen(s) then s.max - s.running else 0)
  }

  predicate Counts(s: Server) {
    s.state != Destroyed
  }

  /** Servers not destroyed. */
  function Standing(servers: seq<Server>): nat {
    if servers == [] then 0
    else Standing(servers[..|servers| - 1]) + (if Counts(servers[|servers| - 1]) then 1 else 0)
  }

  predicate NoneIdle(servers: seq<Server>) {
    forall i :: 0 <= i < |servers| ==> servers[i].state != Idle
  }

  function EnsureStep(servers: seq<Server>, maxServers: int, needed: int, k: nat, created: bool, saved: bool): seq<Server>
    requires NoneIdle(servers) || (k < |servers| && servers[k].state == Idle)
  {
    if Available(servers) >= needed then servers
    else if !NoneIdle(servers) then servers[k := servers[k].(state := Ready)]
    else if Standing(servers) >= maxServers || !created || !saved then servers
    else servers + [Server(Provisioning, 0, DefaultMaxContainers)]
  }

  /** The row is marked whatever state it is in, and stays so when the machine cannot be deleted. */
  function DestroyStep(servers: seq<Server>, i: nat, deleted: bool): seq<Server>
    requires i < |servers|
  {
    servers[i := servers[i].(state := if deleted then Destroyed else Destroying)]
  }

  function DestroyedAll(servers: seq<Server>): (r: seq<Server>)
    ensures |r| == |servers|
    ensures forall i :: 0 <= i < |r| ==>
              r[i] == if servers[i].state == Destroying then servers[i] else servers[i].(state := Destroyed)
  {
    if servers == [] then []
    else
      var last := servers[|servers| - 1];
      DestroyedAll(servers[..|servers| - 1]) + [if last.state == Destroying then last else last.(state := Destroyed)]
  }

  predicate Enabled(servers: seq<Server>, e: Event) {
    match e
    case Increment(k) => IsLeastLoaded(servers, k)
    case Decrement(i) => i < |servers|
    case Ensure(needed, k, created, saved) => NoneIdle(servers) || (k < |servers| && servers[k].state == Idle)
    case MarkReady(i) => i < |servers|
    case Destroy(i, deleted) => i < |servers|
    case MarkIdle(i) => i < |servers| && servers[i].state != Provisioning  // it was ready or idle when listed
    case DestroyWorkspace => true
  }

  function Step(servers: seq<Server>, maxServers: int, e: Event): seq<Server> {
    if !Enabled(servers, e) then servers
    else match e
      case Increment(k) => servers[k := Server(Active, servers[k].running + 1, servers[k].max)]
      case Decrement(i) => servers[i := servers[i].(running := Max(servers[i].running - 1, 0))]
      case Ensure(needed, k, created, saved) => EnsureStep(servers, maxServers, needed, k, created, saved)
      case MarkReady(i) => if servers[i].state == Provisioning then servers[i := servers[i].(state := Ready)] else servers
      case Destroy(i, deleted) => DestroyStep(servers, i, deleted)
      case MarkIdle(i) => servers[i := servers[i].(state := Idle)]
      case DestroyWorkspace => DestroyedAll(servers)
  }

  function After(servers: seq<Server>, maxServers: int, events: seq<Event>): seq<Server>
    decreases |events|
  {
    if events == [] then servers else After(Step(servers, maxServers, events[0]), maxServers, events[1..])
  }

  // ---------------------------------------------------------------- sums over the servers

  lemma {:induction false} AvailableAfterUpdate(servers: seq<Server>, i: nat, s: Server)
    requires i < |servers|
    ensures Available(servers[i := s]) == Available(servers)
              - (if IsOpen(servers[i]) then servers[i].max - servers[i].running else 0)
              + (if IsOpen(s) then s.max - s.running else 0)
    decreases |servers|
  {
    var front := servers[..|servers| - 1];
    if i < |front| {
      AvailableAfterUpdate(front, i, s);
      assert servers[i := s][..|servers| - 1] == front[i := s];
    } else {
      assert servers[i := s][..|servers| - 1] == front;
    }
  }

  lemma {:induction false} StandingAfterUpdate(servers: seq<Server>, i: nat, s: Server)
    requires i < |servers|
    ensures Standing(servers[i := s]) == Standing(servers) - (if Counts(servers[i]) then 1 else 0) + (if Counts(s) then 1 else 0)
    decreases |servers|
  {
    var front := servers[..|servers| - 1];
    if i < |front| {
      StandingAfterUpdate(front, i, s);
      assert servers[i := s][..|servers| - 1] == front[i := s];
    } else {
      assert servers[i := s][..|servers| - 1] == front;
    }
  }

  lemma {:induction false} StandingAfterAppend(servers: seq<Server>, s: Server)
    ensures Standing(servers + [s]) == Standing(servers) + (if Counts(s) then 1 else 0)
  {
    assert (servers + [s])[..|servers|] == servers;
  }

  lemma {:induction false} StandingShrinks(before: seq<Server>, after: seq<Server>)
    requires |before| == |after| && forall i :: 0 <= i < |before| ==> Counts(after[i]) ==> Counts(before[i])
    ensures Standing(after) <= Standing(before)
    decreases |before|
  {
    if before != [] {
      StandingShrinks(before[..|before| - 1], after[..|after| - 1]);
    }
  }

  // ---------------------------------------------------------------- limits

  predicate WithinLimits(servers: seq<Server>) {
    forall i :: 0 <= i < |servers| ==> 0 <= servers[i].running <= servers[i].max
  }

  lemma {:induction false} StepKeepsWithinLimits(servers: seq<Server>, maxServers: int, e: Event)
    requires WithinLimits(servers)
    ensures WithinLimits(Step(servers, maxServers, e))
  {
  }

  /** No server ever runs fewer than no containers, or more than it may. */
  lemma {:induction false} ContainersWithinLimits(servers: seq<Server>, maxServers: int, events: seq<Event>)
    requires WithinLimits(servers)
    ensures WithinLimits(After(servers, maxServers, events))
    decreases |events|
  {
    if events != [] {
      StepKeepsWithinLimits(servers, maxServers, events[0]);
      ContainersWithinLimits(Step(servers, maxServers, events[0]), maxServers, events[1..]);
    }
  }

  /** A row brought back when its server is gone already: by destroying it once more, without success, or
      by the idle check that listed it before. */
  predicate Revives(servers: seq<Server>, e: Event) {
    ((e.Destroy? && !e.deleted) || e.MarkIdle?) && e.i < |servers| && servers[e.i].state == Destroyed
  }

  lemma {:induction false} StandingAfterStep(servers: seq<Server>, maxServers: int, e: Event)
    ensures var after := Standing(Step(servers, maxServers, e));
            if Revives(servers, e) then after == Standing(servers) + 1
            else after <= Max(Standing(servers), maxServers)
  {
    if Enabled(servers, e) {
      match e
      case Increment(k) => StandingAfterUpdate(servers, k, Server(Active, servers[k].running + 1, servers[k].max));
      case Decrement(i) => StandingAfterUpdate(servers, i, servers[i].(running := Max(servers[i].running - 1, 0)));
      case Ensure(needed, k, created, saved) =>
        if !NoneIdle(servers) {
          StandingAfterUpdate(servers, k, servers[k].(state := Ready));
        }
        StandingAfterAppend(servers, Server(Provisioning, 0, DefaultMaxContainers));
      case MarkReady(i) => StandingAfterUpdate(servers, i, servers[i].(state := Ready));
      case Destroy(i, deleted) => StandingAfterUpdate(servers, i, servers[i].(state := if deleted then Destroyed else Destroying));
      case MarkIdle(i) => StandingAfterUpdate(servers, i, servers[i].(state := Idle));
      case DestroyWorkspace => StandingShrinks(servers, DestroyedAll(servers));
    }
  }

  /** A server being provisioned waits for its callback: it changes only when that comes or when it is
      destroyed. */
  lemma {:induction false} ProvisioningLeftIff(servers: seq<Server>, maxServers: int, e: Event, i: nat)
    requires i < |servers| && servers[i].state == Provisioning
    ensures var after := Step(servers, maxServers, e);
            && i < |after|
            && (after[i].state != Provisioning <==> e == MarkReady(i) || (e.Destroy? && e.i == i) || e.DestroyWorkspace?)
            && (e == MarkReady(i) ==> after[i].state == Ready)
  {
  }

  /** The server limit is broken in two ways only: at the limit, by a failing destroy of a destroyed server,
      and by the idle check that marks one. */
  lemma {:induction false} ServerLimitBrokenIff(servers: seq<Server>, maxServers: nat, e: Event)
    requires Standing(servers) <= maxServers
    ensures Standing(Step(servers, maxServers, e)) > maxServers <==> Standing(servers) == maxServers && Revives(servers, e)
  {
    StandingAfterStep(servers, maxServers, e);
  }

  /** How often a history revives a destroyed server. */
  function Revivals(servers: seq<Server>, maxServers: int, events: seq<Event>): nat
    decreases |events|
  {
    if events == [] then 0
    else (if Revives(servers, events[0]) then 1 else 0) + Revivals(Step(servers, maxServers, events[0]), maxServers, events[1..])
  }

  lemma {:induction false} StandingBounded(servers: seq<Server>, maxServers: nat, events: seq<Event>, slack: nat)
    requires Standing(servers) <= maxServers + slack
    ensures Standing(After(servers, maxServers, events)) <= maxServers + slack + Revivals(servers, maxServers, events)
    decreases |events|
  {
    if events != [] {
      StandingAfterStep(servers, maxServers, events[0]);
      StandingBounded(Step(servers, maxServers, events[0]), maxServers, events[1..], slack + (if Revives(servers, events[0]) then 1 else 0));
    }
  }

  /** Over any history of serialised operations the servers not destroyed stay within MaxServers, plus
      one for each destroyed server that was revived. */
  lemma {:induction false} ServersWithinLimit(servers: seq<Server>, maxServers: nat, events: seq<Event>)
    requires servers == []
    ensures Standing(After(servers, maxServers, events)) <= maxServers + Revivals(servers, maxServers, events)
  {
    StandingBounded(servers, maxServers, events, 0);
  }

  // ---------------------------------------------------------------- increments

  lemma {:induction false} LeastLoadedExists(servers: seq<Server>, i: nat)
    requires i < |servers| && HasRoom(servers[i])
    ensures exists k: nat :: IsLeastLoaded(servers, k)
  {
    var k: nat := i;
    for j := 0 to |servers|
      invariant k < |servers| && HasRoom(servers[k])
      invariant forall m :: 0 <= m < j && HasRoom(servers[m]) ==> servers[k].running <= servers[m].running
    {
      if HasRoom(servers[j]) && servers[j].running < servers[k].running {
        k := j;
      }
    }
    assert IsLeastLoaded(servers, k);
  }

  lemma {:induction false} NoRoomNothingAvailable(servers: seq<Server>)
    requires WithinLimits(servers)
    ensures Available(servers) >= 0
    ensures Available(servers) > 0 <==> exists i :: 0 <= i < |servers| && HasRoom(servers[i])
  {
    if servers != [] {
      var front := servers[..|servers| - 1];
      NoRoomNothingAvailable(front);
      if i :| 0 <= i < |servers| && HasRoom(servers[i]) {
        if i < |front| {
          assert HasRoom(front[i]);
        }
      }
      if Available(front) > 0 {
        var i :| 0 <= i < |front| && HasRoom(front[i]);
        assert HasRoom(servers[i]);
      }
    }
  }

  /** A history of increments, each on a least loaded server with room. */
  predicate Increments(servers: seq<Server>, events: seq<Event>)
    decreases |events|
  {
    events == [] || (events[0].Increment? && IsLeastLoaded(servers, events[0].k) && Increments(Step(servers, 0, events[0]), events[1..]))
  }

  /** Every increment takes one of the free slots, and finds one as long as there is one: what
      EnsureCapacity found available can be taken in full, and no more. */
  lemma {:induction false} IncrementsTakeWhatIsAvailable(servers: seq<Server>, n: nat)
    requires WithinLimits(servers)
    ensures n <= Available(servers) <==> exists events: seq<Event> :: |events| == n && Increments(servers, events)
    decreases n
  {
    NoRoomNothingAvailable(servers);
    if n == 0 {
      var none: seq<Event> := [];
      assert Increments(servers, none);
    } else {
      if n <= Available(servers) {
        var i :| 0 <= i < |servers| && HasRoom(servers[i]);
        LeastLoadedExists(servers, i);
        var k: nat :| IsLeastLoaded(servers, k);
        IncrementTakesOne(servers, k);
        var rest := Step(servers, 0, Increment(k));
        IncrementsTakeWhatIsAvailable(rest, n - 1);
        var es: seq<Event> :| |es| == n - 1 && Increments(rest, es);
        assert ([Increment(k)] + es)[1..] == es;
        assert Increments(servers, [Increment(k)] + es);
      }
      if events: seq<Event> :| |events| == n && Increments(servers, events) {
        var rest := Step(servers, 0, events[0]);
        IncrementTakesOne(servers, events[0].k);
        assert |events[1..]| == n - 1 && Increments(rest, events[1..]);
        IncrementsTakeWhatIsAvailable(rest, n - 1);
      }
    }
  }

  lemma {:induction false} IncrementTakesOne(servers: seq<Server>, k: nat)
    requires WithinLimits(servers) && IsLeastLoaded(servers, k)
    ensures WithinLimits(Step(servers, 0, Increment(k)))
    ensures Available(Step(servers, 0, Increment(k))) == Available(servers) - 1
  {
    AvailableAfterUpdate(servers, k, Server(Active, servers[k].running + 1, servers[k].max));
  }

  /** No server is more than one ahead of a server that still has room. */
  predicate Balanced(servers: seq<Server>) {
    forall i, j :: 0 <= i < |servers| && 0 <= j < |servers| && HasRoom(servers[j]) ==> servers[i].running <= servers[j].running + 1
  }

  /** Increments alone keep an empty pool balanced, whatever tie-break the database uses. */
  lemma {:induction false} IncrementsStayBalanced(servers: seq<Server>, events: seq<Event>)
    requires Balanced(servers) && Increments(servers, events)
    ensures Balanced(After(servers, 0, events))
    decreases |events|
  {
    if events != [] {
      assert Balanced(Step(servers, 0, events[0]));
      IncrementsStayBalanced(Step(servers, 0, events[0]), events[1..]);
    }
  }
}
