/** The provisioner as it rewrites the server rows in place, tied to the steps of Placement
    (internal/infra/provisioner.go). */
module Provisioners {
  import opened Domain
  import opened Placement

  datatype EnsureResult = Address(server: nat) | NoAddress | MaxServersReached | CreateFailed

  class Provisioner {
    const maxServers: int
    var servers: seq<Server>

    constructor (maxServers: int)
      ensures this.maxServers == maxServers && servers == []
    {
      this.maxServers := maxServers;
      servers := [];
    }

    /** The sub-select of IncrementContainer and of EnsureCapacity. */
    method LeastLoaded() returns (found: Option<nat>)
      ensures match found
              case Some(k) => IsLeastLoaded(servers, k)
              case None => forall i :: 0 <= i < |servers| ==> !HasRoom(servers[i])
    {
      found := None;
      for i := 0 to |servers|
        invariant found.Some? ==> found.value < i && HasRoom(servers[found.value])
        invariant forall j :: 0 <= j < i && HasRoom(servers[j]) ==> found.Some? && servers[found.value].running <= servers[j].running
      {
        if HasRoom(servers[i]) && (found.None? || servers[i].running < servers[found.value].running) {
          found := Some(i);
        }
      }
    }

    /** Succeeds exactly when some open server has room, and takes a least loaded one. */
    method IncrementContainer() returns (server: Option<nat>)
      modifies this`servers
      ensures server.Some? <==>
                exists i :: 0 <= i < |old(servers)| && (old(servers)[i].state == Ready || old(servers)[i].state == Active)
                            && old(servers)[i].running < old(servers)[i].max
      ensures match server
              case Some(k) =>
                && k < |old(servers)| && servers == Step(old(servers), maxServers, Increment(k))
                && (old(servers)[k].state == Ready || old(servers)[k].state == Active) && old(servers)[k].running < old(servers)[k].max
                && (forall i :: 0 <= i < |servers| && (old(servers)[i].state == Ready || old(servers)[i].state == Active) ==>
                      old(servers)[i].running < old(servers)[i].max ==> old(servers)[k].running <= old(servers)[i].running)
                && servers == old(servers)[k := old(servers)[k].(state := Active, running := old(servers)[k].running + 1)]
              case None => servers == old(servers)
    {
      server := LeastLoaded();
      match server {
        case Some(k) =>
          servers := servers[k := servers[k].(state := Active, running := servers[k].running + 1)];
        case None =>
      }
    }

    method DecrementContainer(i: nat)
      requires i < |servers|
      modifies this`servers
      ensures servers == Step(old(servers), maxServers, Decrement(i))
      ensures servers == old(servers)[i := old(servers)[i].(running := if old(servers)[i].running > 0 then old(servers)[i].running - 1 else 0)]
    {
      var running := servers[i].running - 1;
      if running < 0 {
        running := 0;
      }
      servers := servers[i := servers[i].(running := running)];
    }

    /** An address is no promise of capacity: the slots asked for are free only where they were before
        the call, and a machine that could not be recorded has an address too. */
    method EnsureCapacity(needed: int, created: bool, saved: bool) returns (result: EnsureResult)
      modifies this`servers
      ensures exists k: nat :: Enabled(old(servers), Ensure(needed, k, created, saved))
                && servers == Step(old(servers), maxServers, Ensure(needed, k, created, saved))
      ensures (Available(old(servers)) >= needed && needed >= 1 && WithinLimits(old(servers))) ==>
                result.Address? && IsLeastLoaded(servers, result.server)
      ensures Available(old(servers)) < needed && !NoneIdle(old(servers)) ==>
                && result.Address? && result.server < |servers| && old(servers)[result.server].state == Idle
                && servers == old(servers)[result.server := old(servers)[result.server].(state := Ready)]
      ensures result.MaxServersReached? <==>
                Available(old(servers)) < needed && NoneIdle(old(servers)) && Standing(old(servers)) >= maxServers
      ensures result.CreateFailed? <==>
                Available(old(servers)) < needed && NoneIdle(old(servers)) && Standing(old(servers)) < maxServers && !created
      ensures Available(old(servers)) >= needed || result.MaxServersReached? || result.CreateFailed? ==> servers == old(servers)
      ensures Available(old(servers)) < needed && NoneIdle(old(servers)) && Standing(old(servers)) < maxServers && created ==>
                servers == old(servers) + if saved then [Server(Provisioning, 0, 4)] else []
    {
      var available := 0;
      for i := 0 to |servers|
        invariant available == Available(servers[..i])
      {
        assert servers[..i + 1][..i] == servers[..i];
        if IsOpen(servers[i]) {
          available := available + (servers[i].max - servers[i].running);
        }
      }
      assert servers[..|servers|] == servers;
      var idle: Option<nat> := FirstIdle();
      ghost var k := if idle.Some? then idle.value else 0;
      assert Enabled(servers, Ensure(needed, k, created, saved));
      if available >= needed {
        var found := LeastLoaded();
        if WithinLimits(servers) {
          NoRoomNothingAvailable(servers);
        }
        return if found.Some? then Address(found.value) else NoAddress;
      }
      if idle.Some? {
        servers := servers[idle.value := servers[idle.value].(state := Ready)];
        return Address(idle.value);
      }
      var standing := 0;
      for i := 0 to |servers|
        invariant standing == Standing(servers[..i])
      {
        assert servers[..i + 1][..i] == servers[..i];
        if Counts(servers[i]) {
          standing := standing + 1;
        }
      }
      assert servers[..|servers|] == servers;
      if standing >= maxServers {
        return MaxServersReached;
      }
      if !created {
        return CreateFailed;
      }
      if saved {
        servers := servers + [Server(Provisioning, 0, DefaultMaxContainers)];
      }
      result := Address(|servers|);
    }

    method FirstIdle() returns (found: Option<nat>)
      ensures found.None? <==> NoneIdle(servers)
      ensures found.Some? ==> found.value < |servers| && servers[found.value].state == Idle
    {
      for i := 0 to |servers|
        invariant forall j :: 0 <= j < i ==> servers[j].state != Idle
      {
        if servers[i].state == Idle {
          return Some(i);
        }
      }
      found := None;
    }

    method MarkServerReady(i: nat)
      requires i < |servers|
      modifies this`servers
      ensures servers == Step(old(servers), maxServers, MarkReady(i))
      ensures servers == if old(servers)[i].state == Provisioning then old(servers)[i := old(servers)[i].(state := Ready)] else old(servers)
    {
      if servers[i].state == Provisioning {
        servers := servers[i := servers[i].(state := Ready)];
      }
    }

    /** `attempts` says which of the three deletions the cloud would accept. */
    method DestroyServer(i: nat, attempts: seq<bool>) returns (deleted: bool)
      requires i < |servers| && |attempts| == 3
      modifies this`servers
      ensures deleted <==> true in attempts
      ensures servers == Step(old(servers), maxServers, Destroy(i, deleted))
      ensures servers == old(servers)[i := old(servers)[i].(state := if deleted then Destroyed else Destroying)]
    {
      servers := servers[i := servers[i].(state := Destroying)];
      deleted := false;
      var attempt := 0;
      while attempt < 3 && !deleted
        invariant 0 <= attempt <= 3
        invariant deleted <==> true in attempts[..attempt]
      {
        assert attempts[..attempt + 1] == attempts[..attempt] + [attempts[attempt]];
        deleted := attempts[attempt];
        attempt := attempt + 1;
      }
      assert attempts[..3] == attempts;
      assert attempts == attempts[..attempt] + attempts[attempt..];
      if deleted {
        servers := servers[i := servers[i].(state := Destroyed)];
      }
    }

    /** What the idle check selects. */
    predicate IsUnused(s: Server) {
      (s.state == Ready || s.state == Idle) && s.running == 0
    }

    method MarkIdle(i: nat)
      requires i < |servers| && servers[i].state != Provisioning
      modifies this`servers
      ensures servers == Step(old(servers), maxServers, Event.MarkIdle(i))
    {
      servers := servers[i := servers[i].(state := Idle)];
    }

    /** The idle check with nobody in between: `lapsed` says which rows are past the grace period.  A server
        is destroyed exactly if it is unused for that long and the cloud deletes it within three attempts;
        otherwise it stays marked, and no other server is touched. */
    method CheckIdleServers(lapsed: seq<bool>, attempts: seq<seq<bool>>)
      requires |lapsed| == |attempts| == |servers| && forall i :: 0 <= i < |attempts| ==> |attempts[i]| == 3
      modifies this`servers
      ensures |servers| == |old(servers)|
      ensures forall i :: 0 <= i < |servers| ==>
                servers[i] == if lapsed[i] && old(servers)[i].state in {Ready, Idle} && old(servers)[i].running == 0
                              then old(servers)[i].(state := if true in attempts[i] then Destroyed else Destroying)
                              else old(servers)[i]
    {
      for i := 0 to |servers|
        invariant |servers| == |old(servers)| && servers[i..] == old(servers)[i..]
        invariant forall j :: 0 <= j < i ==>
                    servers[j] == if !lapsed[j] || !IsUnused(old(servers)[j]) then old(servers)[j]
                                  else old(servers)[j].(state := if true in attempts[j] then Destroyed else Destroying)
      {
        assert servers[i] == servers[i..][0] == old(servers)[i..][0];
        if lapsed[i] && IsUnused(servers[i]) {
          MarkIdle(i);
          var deleted := DestroyServer(i, attempts[i]);
        }
      }
    }

    method DestroyWorkspaceServers()
      modifies this`servers
      ensures servers == Step(old(servers), maxServers, DestroyWorkspace)
      ensures |servers| == |old(servers)|
      ensures forall i :: 0 <= i < |servers| ==>
                servers[i] == old(servers)[i].(state := if old(servers)[i].state == Destroying then Destroying else Destroyed)
    {
      for i := 0 to |servers|
        invariant |servers| == |old(servers)| && servers[i..] == old(servers)[i..]
        invariant servers[..i] == DestroyedAll(old(servers))[..i]
      {
        var s := servers[i];
        if s.state != Destroyed && s.state != Destroying {
          servers := servers[i := s.(state := Destroyed)];
        }
      }
    }
  }
}
