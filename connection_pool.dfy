/** The pool object of connection_pool.cpp and its scoped handle. Every
    operation runs as one atomic step (the mutex and the unlocked windows
    around network calls are not modelled); the outcomes of the network and
    authorization calls come in as parameters. The public operations and the
    stale-host sweep are proved to leave exactly the state of the matching
    PoolSpec function; the helpers are proved against `Survivors`,
    `PoolSpec.CleanUpOlderThan`, `StaleSweep` or `TryIdle`, and `ProbeFront`
    states its effect field by field. */
module Pool {
  import opened Records
  import opened PoolSpec

  class ConnectionPool {
    /** `_connections`: the idle list of each host. */
    var connections: map<Host, ConnectionList>
    /** `_inUseConnections`: records checked out to callers. */
    var inUse: ConnectionList
    /** `_lastUsedHosts`: last release time of each host, or NeverTooStale. */
    var lastUsedHosts: map<Host, Date>
    /** `_lastCleanUpTime`: when the stale-host sweep last ran. */
    var lastCleanUpTime: Date
    /** `_messagingPortTags`: OR-ed into every dialed connection's tag. */
    const messagingPortTags: int

    /** The pool's fields as a value. */
    function State(): PoolState
      reads this
    {
      PoolState(connections, inUse, lastUsedHosts, lastCleanUpTime)
    }

    ghost predicate Valid()
      reads this
    {
      PoolSpec.Valid(State())
    }

    constructor (messagingPortTags: int)
      ensures Valid() && State() == Initial()
      ensures this.messagingPortTags == messagingPortTags
    {
      connections := map[];
      inUse := [];
      lastUsedHosts := map[];
      lastCleanUpTime := 0;
      this.messagingPortTags := messagingPortTags;
    }

    /** The destructor: sweep everything at Date_t::max(), after which the
        idle map is empty; the in-use list must already be empty. */
    method Dispose()
      requires Valid() && inUse == []
      modifies this
      ensures Valid() && connections == map[] && inUse == []
    {
      ghost var s0 := State();
      CleanUpOlderThan(MaxDate);
      DestructorEmptiesIdleMap(s0);
      assert connections == map[];
    }

    /** `_cleanUpOlderThan_inlock(now, list)`: walk the list front to back,
        erasing each record `_shouldKeepConnection` rejects. */
    static method CleanUpList(list: ConnectionList, now: Date) returns (swept: ConnectionList)
      ensures swept == Survivors(list, now)
    {
      swept := list;
      var iter := 0;
      ghost var visited := 0;
      while iter < |swept|
        invariant iter <= |swept| && visited <= |list|
        invariant swept[..iter] == Survivors(list[..visited], now)
        invariant swept[iter..] == list[visited..]
        decreases |swept| - iter
      {
        assert swept[iter] == list[visited];
        assert list[..visited + 1][..visited] == list[..visited];
        assert swept[iter + 1..] == list[visited + 1..];
        if ShouldKeepConnection(now, swept[iter]) {
          assert swept[..iter + 1] == swept[..iter] + [swept[iter]];
          iter := iter + 1;
        } else {
          var front := swept[..iter];
          var back := swept[iter + 1..];
          swept := front + back;
          assert swept[..iter] == front && swept[iter..] == back;
        }
        visited := visited + 1;
      }
      assert list[..visited] == list;
    }

    /** `cleanUpOlderThan(now)`: the whole-pool sweep under the lock. */
    method CleanUpOlderThan(now: Date)
      requires Valid()
      modifies this
      ensures Valid()
      ensures State() == PoolSpec.CleanUpOlderThan(old(State()), now)
    {
      CleanUpOlderThanValid(State(), now);
      CleanUpAllHosts(now);
    }

    /** `_cleanUpOlderThan_inlock(now)`: sweep every host's idle list and
        erase the hosts left empty; nothing else changes. */
    method CleanUpAllHosts(now: Date)
      modifies this
      ensures State() == PoolSpec.CleanUpOlderThan(old(State()), now)
    {
      var hosts := connections.Keys;
      PartlySweptStart(connections, now);
      while hosts != {}
        invariant hosts <= old(connections).Keys
        invariant inUse == old(inUse) && lastUsedHosts == old(lastUsedHosts)
        invariant lastCleanUpTime == old(lastCleanUpTime)
        invariant connections == PartlySwept(old(connections), hosts, now)
        decreases hosts
      {
        var h :| h in hosts;
        var swept := CleanUpList(connections[h], now);
        connections := connections[h := swept];
        if connections[h] == [] {
          connections := connections - {h};
          PartlySweptErase(old(connections), hosts, h, now);
        } else {
          PartlySweptUpdate(old(connections), hosts, h, now);
        }
        hosts := hosts - {h};
      }
      PartlySweptDone(old(connections), now);
    }

    /** `closeAllInUseConnections()`: shut down the transport of every
        in-use connection, front to back. The containers are not changed;
        the result lists the connections whose port was shut down. */
    method CloseAllInUseConnections() returns (shutDown: seq<ConnId>)
      ensures |shutDown| == |inUse|
      ensures forall i :: 0 <= i < |inUse| ==> shutDown[i] == inUse[i].id
    {
      shutDown := [];
      for i := 0 to |inUse|
        invariant |shutDown| == i
        invariant forall j :: 0 <= j < i ==> shutDown[j] == inUse[j].id
      {
        shutDown := shutDown + [inUse[i].id];
      }
    }

    /** `_cleanUpStaleHosts_inlock(now)`: at most once per interval, clean a
        copy of each stale host's list (it must come out empty), mark the
        host never-too-stale, and advance the sweep time. */
    method CleanUpStaleHosts(now: Date)
      requires Valid() && IsClockTime(now)
      modifies this
      ensures Valid()
      ensures State() == StaleSweep(old(State()), now)
    {
      ghost var s0 := State();
      StaleSweepValid(s0, now);
      if now > lastCleanUpTime + CleanUpInterval {
        forall h | IsStaleHost(s0, h)
          ensures Survivors(if h in connections then connections[h] else [], now) == []
        {
          StaleHostHasNoLiveConnections(s0, h, now);
        }
        MarkStaleHosts(now);
      }
    }

    /** The body of the stale-host sweep once it is due: every stale host's
        list, swept, comes out empty. */
    method MarkStaleHosts(now: Date)
      requires SweepDue(State(), now)
      requires forall h :: IsStaleHost(State(), h) ==>
        Survivors(if h in connections then connections[h] else [], now) == []
      modifies this
      ensures State() == StaleSweep(old(State()), now)
    {
      ghost var s0 := State();
      ghost var target := StaleSweep(s0, now).lastUsed;
      var hosts := lastUsedHosts.Keys;
      while hosts != {}
        invariant hosts <= s0.lastUsed.Keys
        invariant connections == s0.connections && inUse == s0.inUse
        invariant lastCleanUpTime == s0.lastCleanUpTime
        invariant lastUsedHosts.Keys == s0.lastUsed.Keys
        invariant forall h :: h in lastUsedHosts ==>
          lastUsedHosts[h] == if h in hosts then s0.lastUsed[h] else target[h]
        decreases hosts
      {
        var h :| h in hosts;
        if lastUsedHosts[h] <= lastCleanUpTime {
          var connList := if h in connections then connections[h] else [];
          connList := CleanUpList(connList, now);
          assert IsStaleHost(s0, h);
          assert connList == [];
          lastUsedHosts := lastUsedHosts[h := NeverTooStale];
        }
        hosts := hosts - {h};
      }
      lastCleanUpTime := now;
    }

    /** `acquireConnection(target, now, timeout)`: hand out a live idle
        record of the target, most recently released first, or dial a new
        connection with identity `newId`. */
    method AcquireConnection(target: Host, now: Date, probe: ConnId -> Probe,
                             dial: DialOutcome, newId: ConnId) returns (res: Result<ConnectionInfo>)
      requires Valid() && IsClockTime(now) && IsFreshId(State(), newId)
      modifies this
      ensures Valid()
      ensures State() == Acquire(old(State()), target, now, probe, dial, newId).0
      ensures res == Acquire(old(State()), target, now, probe, dial, newId).1
    {
      AcquireValid(State(), target, now, probe, dial, newId);
      CleanUpStaleHosts(now);
      var reused := TryIdleConnections(target, now, probe);
      if reused.Some? {
        res := reused.value;
        return;
      }
      // No idle connection in the pool; dial a new one.
      if !dial.connected {
        res := Err(ConnectFailed(ConnectFailedCode, target));
        return;
      }
      if dial.authEnabled {
        if !dial.internalAuthSet {
          res := Err(AuthenticationFailed);
          return;
        }
        if !dial.authAccepted {
          res := Err(AuthRejected);
          return;
        }
      }
      var c := ConnectionInfo(newId, target, now);
      inUse := [c] + inUse;
      res := Ok(c);
    }

    /** The retry loop of `acquireConnection`: while the target has an idle
        list, run one round of `TryFrontConnection`; stop when a round
        returns, or when the target has no idle list (None: go and dial). */
    method TryIdleConnections(target: Host, now: Date, probe: ConnId -> Probe)
      returns (out: Option<Result<ConnectionInfo>>)
      modifies this
      ensures (State(), out) == TryIdle(old(State()), target, now, probe)
    {
      ghost var s0 := State();
      while target in connections
        invariant TryIdle(State(), target, now, probe) == TryIdle(s0, target, now, probe)
        decreases if target in connections then |connections[target]| else 0
      {
        var stop;
        stop, out := TryFrontConnection(target, now, probe);
        if stop {
          return;
        }
      }
      out := None;
    }

    /** One round of the retry loop: sweep the target's list; if it is empty,
        mark the host never-too-stale and stop with None; otherwise take its
        front record and probe it (`ProbeFront`). A dead record leaves the
        loop going on with a shorter list. */
    method TryFrontConnection(target: Host, now: Date, probe: ConnId -> Probe)
      returns (stop: bool, out: Option<Result<ConnectionInfo>>)
      requires target in connections
      modifies this
      ensures stop ==> (State(), out) == TryIdle(old(State()), target, now, probe)
      ensures !stop ==>
        target in connections && |connections[target]| < |old(connections)[target]| &&
        TryIdle(State(), target, now, probe) == TryIdle(old(State()), target, now, probe)
    {
      ghost var before := State();
      TryIdleStep(before, target, now, probe);
      var kept := CleanUpList(connections[target], now);
      connections := connections[target := kept];
      if kept == [] {
        lastUsedHosts := lastUsedHosts[target := NeverTooStale];
        stop, out := true, None;
        assert connections == before.connections[target := []];
        return;
      }
      stop, out := ProbeFront(target, probe);
      assert connections == before.connections[target := kept[1..]];
    }

    /** Move the front record of the target's (non-empty) list to the front
        of the in-use list and probe it: return it if alive; if the probe
        throws, destroy it and rethrow; if dead, destroy it and go on. */
    method ProbeFront(target: Host, probe: ConnId -> Probe)
      returns (stop: bool, out: Option<Result<ConnectionInfo>>)
      requires target in connections && connections[target] != []
      modifies this
      ensures var candidate := old(connections)[target][0];
        connections == old(connections)[target := old(connections)[target][1..]] &&
        lastUsedHosts == old(lastUsedHosts) && lastCleanUpTime == old(lastCleanUpTime) &&
        (probe(candidate.id) == Alive ==>
           stop && out == Some(Ok(candidate)) && inUse == [candidate] + old(inUse)) &&
        (probe(candidate.id) == Throws ==>
           stop && out == Some(Err(ProbeThrew)) && inUse == old(inUse)) &&
        (probe(candidate.id) == Dead ==> !stop && inUse == old(inUse))
    {
      var candidate := connections[target][0];
      inUse := [candidate] + inUse;
      connections := connections[target := connections[target][1..]];
      match probe(candidate.id)
      case Alive =>
        stop, out := true, Some(Ok(candidate));
      case Throws =>
        inUse := inUse[1..];
        stop, out := true, Some(Err(ProbeThrew));
      case Dead =>
        inUse := inUse[1..];
        stop, out := false, None;
    }

    /** `releaseConnection(r, now)`: destroy an expired record; otherwise
        sweep its host's list, move it to the front of that list and record
        the host's last use. */
    method ReleaseConnection(r: ConnectionInfo, now: Date)
      requires Valid() && r in inUse && CreatedNoLaterThan(State(), now)
      modifies this
      ensures Valid()
      ensures State() == Release(old(State()), r, now)
    {
      ReleaseValid(State(), r, now);
      if !ShouldKeepConnection(now, r) {
        DestroyConnection(r);
        return;
      }
      var hostConns := if r.host in connections then connections[r.host] else [];
      hostConns := CleanUpList(hostConns, now);
      inUse := Erase(inUse, r);
      connections := connections[r.host := [r] + hostConns];
      lastUsedHosts := lastUsedHosts[r.host := now];
    }

    /** `destroyConnection(r)`: erase the record from the in-use list. */
    method DestroyConnection(r: ConnectionInfo)
      requires Valid() && r in inUse
      modifies this
      ensures Valid()
      ensures State() == Destroy(old(State()), r)
    {
      DestroyValid(State(), r);
      inUse := Erase(inUse, r);
    }
  }

  /** `ConnectionPtr`: holds one checked-out record. `Done` gives it back to
      the pool and disarms the handle; disposing of an armed handle destroys
      the record instead. */
  class ConnectionPtr {
    /** `_pool`: the owning pool while armed, null once `Done` ran. */
    var pool: ConnectionPool?
    /** `_connInfo`: the checked-out record. */
    const connInfo: ConnectionInfo

    constructor Armed(pool: ConnectionPool, connInfo: ConnectionInfo)
      ensures this.pool == pool && this.connInfo == connInfo
    {
      this.pool := pool;
      this.connInfo := connInfo;
    }

    /** The constructor: acquire from the pool, or let its exception through
        (no handle then exists). */
    static method Open(pool: ConnectionPool, target: Host, now: Date, probe: ConnId -> Probe,
                       dial: DialOutcome, newId: ConnId) returns (res: Result<ConnectionPtr>)
      requires pool.Valid() && IsClockTime(now) && IsFreshId(pool.State(), newId)
      modifies pool
      ensures pool.Valid()
      ensures var (s', r) := Acquire(old(pool.State()), target, now, probe, dial, newId);
        pool.State() == s' &&
        (r.Err? ==> res == Err(r.error)) &&
        (r.Ok? ==> res.Ok? && fresh(res.value) &&
                   res.value.pool == pool && res.value.connInfo == r.value)
    {
      var acquired := pool.AcquireConnection(target, now, probe, dial, newId);
      if acquired.Err? {
        res := Err(acquired.error);
      } else {
        var p := new ConnectionPtr.Armed(pool, acquired.value);
        res := Ok(p);
      }
    }

    /** `done(now)`: release the record to the pool and disarm. */
    method Done(now: Date)
      requires pool != null && pool.Valid() && connInfo in pool.inUse
      requires CreatedNoLaterThan(pool.State(), now)
      modifies this, pool
      ensures pool == null
      ensures old(pool).Valid()
      ensures old(pool).State() == Release(old(pool.State()), connInfo, now)
    {
      pool.ReleaseConnection(connInfo, now);
      pool := null;
    }

    /** The destructor: an armed handle destroys its record; a disarmed one
        does nothing. */
    method Dispose()
      requires pool != null ==> pool.Valid() && connInfo in pool.inUse
      modifies pool
      ensures pool == old(pool)
      ensures pool != null ==> pool.Valid() && pool.State() == Destroy(old(pool.State()), connInfo)
    {
      if pool != null {
        pool.DestroyConnection(connInfo);
      }
    }
  }
}
