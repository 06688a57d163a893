# Per-host connection pool (MongoDB `ConnectionPool`)

This project models the bookkeeping of MongoDB's per-host client connection
pool, `src/mongo/client/connection_pool.cpp`. The pool keeps four fields:

- `_connections`: for each host, the list of idle connections, most recently
  released first.
- `_inUseConnections`: the list of connections checked out to callers.
- `_lastUsedHosts`: for each host, the time of its last release, or the
  sentinel `kNeverTooStale` (`Date_t::max()`).
- `_lastCleanUpTime`: when the stale-host sweep last ran.

A connection is a record of an identity (the `DBClientConnection` object), the
host it is connected to and its creation date. A record 30 seconds old or
older (`kMaxConnectionAge`) is destroyed by the sweeps. `acquireConnection` first runs
the stale-host sweep. That sweep runs at most every five minutes
(`kCleanUpInterval`). Then `acquireConnection` tries the target's idle records
front to back, probing each one, and dials a new connection when none is left.
`releaseConnection` puts a young record back at the front of its host's list.
`ConnectionPtr` is the scoped handle: `done` releases the record, and the
destructor of a handle that is still armed destroys it.

The project has three modules:

- `Records` (`records.dfy`): time constants, the age test, the per-host sweep
  as a function on lists (`Survivors`), and `std::list::erase` (`Erase`).
- `PoolSpec` (`pool_spec.dfy`): the pool's state as a value (`PoolState`). It
  holds the pool invariant `Valid`, one function per operation, and the lemmas
  that state what the operations promise. It also holds the finding below.
- `Pool` (`connection_pool.dfy`): the classes `ConnectionPool` and
  `ConnectionPtr`.
  - Their methods update the fields in place with the source's loops.
  - The public operations (`CleanUpOlderThan`, `AcquireConnection`,
    `ReleaseConnection`, `DestroyConnection`) and the stale-host sweep
    `CleanUpStaleHosts` are each proved to leave exactly the state of the
    matching `PoolSpec` function, and to keep `Valid`.
  - The helpers `CleanUpList`, `CleanUpAllHosts`, `MarkStaleHosts`,
    `TryIdleConnections`, `TryFrontConnection` and `ProbeFront` are proved
    against `Survivors`, `PoolSpec.CleanUpOlderThan`, `StaleSweep` and
    `TryIdle` (or one step of it). They say nothing about `Valid`.
  - `closeAllInUseConnections` changes no container, so it has no `PoolSpec`
    function; it is proved to report exactly the in-use records.

The network and authorization calls enter as parameters:

- `isStillConnected` is a function `probe` from identity to `Alive`, `Dead` or
  `Throws`.
- The dial path gets a `DialOutcome`. It says whether `connect` succeeds,
  whether authorization is enabled, whether internal credentials are set, and
  whether `auth` accepts them.
- `new DBClientConnection` becomes an identity `newId`, which must be held
  nowhere in the pool (`IsFreshId`).

Time is an unbounded integer of milliseconds. The operations that need it
require a "clock time" (`IsClockTime`): not negative, and far enough below
`Date_t::max()` that adding the cleanup interval does not overflow.

## Model

| member | source | states |
|---|---|---|
| Records.ShouldKeepConnection | src/mongo/client/connection_pool.cpp:88-95 | The age test. It has no `ensures`: it defines when a record is kept. `KeptIffYoungerThanMaxAge` and `ExpiryIsPermanent` state what it promises. |
| Records.KeptIffYoungerThanMaxAge | src/mongo/client/connection_pool.cpp:88-95 | A record is kept exactly while `now - creationDate` is below the 30-second maximum age. A record created at `now` is kept. |
| Records.ExpiryIsPermanent | src/mongo/client/connection_pool.cpp:88-95 | Once the age test drops a record, it drops it at every later time. |
| Records.Survivors | src/mongo/client/connection_pool.cpp:76-86 | The per-host sweep never lengthens a list. Every record it leaves was in the list and passes the age test. |
| Records.SurvivorsMembership | src/mongo/client/connection_pool.cpp:76-86 | A record survives the per-host sweep if and only if it was in the list and the age test keeps it. |
| Records.SurvivorsAppend | src/mongo/client/connection_pool.cpp:76-86 | The sweep keeps relative order. The survivors of a concatenation are the survivors of the front part followed by those of the back part. |
| Records.SurvivorsKeepsLiveFront | src/mongo/client/connection_pool.cpp:76-86 | When the front record of a list is young, the sweep keeps it at the front. |
| Records.SurvivorsEmptyIffAllExpired | src/mongo/client/connection_pool.cpp:76-86 | The sweep empties a list if and only if every record in it is expired. |
| Records.SurvivorsOfLiveList | src/mongo/client/connection_pool.cpp:76-86 | A list of young records is left unchanged. |
| Records.SurvivorsComposes | src/mongo/client/connection_pool.cpp:76-86 | Sweeping at one time and then at a later time equals one sweep at the later time. In particular, the sweep is idempotent. |
| Records.SurvivorsIds | src/mongo/client/connection_pool.cpp:76-86 | The sweep adds no identity and no duplicate. |
| Records.FrontLeavesTail | src/mongo/client/connection_pool.cpp:145-147 | After the front record is spliced off a duplicate-free list, the tail is duplicate-free, holds only records of the list, and does not hold the front's identity. |
| Records.PushFrontIds | src/mongo/client/connection_pool.cpp:194 | Inserting a record with a new identity at the front of a duplicate-free list adds exactly that identity and no duplicate. |
| Records.IndexOf | src/mongo/client/connection_pool.cpp:216-220 | The position an iterator designates: the first position holding the record. |
| Records.Erase | src/mongo/client/connection_pool.cpp:219 | Erasing at an iterator shortens the list by one and removes exactly one copy of the record (multiset). |
| Records.EraseRemovesExactly | src/mongo/client/connection_pool.cpp:216-220 | In a duplicate-free list, erase removes exactly the record's identity and keeps every other record. |
| PoolSpec.CleanUpOlderThan | src/mongo/client/connection_pool.cpp:58-74 | The whole-pool sweep as a state. It has no `ensures`: it defines the state after the sweep. `CleanUpOlderThanExact`, `CleanUpOlderThanValid` and `CleanUpBeforeCreationKeepsRecords` state what it promises. |
| PoolSpec.SweepAll | src/mongo/client/connection_pool.cpp:63-74 | After the whole-pool sweep, no host has an empty idle list and every idle record is young at `now`. No host is added. |
| PoolSpec.CleanUpOlderThanExact | src/mongo/client/connection_pool.cpp:63-74 | A host keeps its list if and only if one of its records is young. The kept list holds exactly the young records. The in-use list and the last-used map are unchanged. |
| PoolSpec.SweepAllShrinks | src/mongo/client/connection_pool.cpp:63-74 | Every list the whole-pool sweep leaves holds only records the list held before, and no duplicate. |
| PoolSpec.CleanUpOlderThanValid | src/mongo/client/connection_pool.cpp:58-74 | `cleanUpOlderThan` keeps the pool invariant and makes no identity held again. |
| PoolSpec.DestructorEmptiesIdleMap | src/mongo/client/connection_pool.cpp:51-54 | The destructor's sweep at `Date_t::max()` leaves the idle map empty. |
| PoolSpec.CleanUpBeforeCreationKeepsRecords | src/mongo/client/connection_pool.cpp:63-74 | A sweep at a time before every creation date removes no record. It only erases the hosts whose list is already empty. |
| PoolSpec.PartlySweptErase | src/mongo/client/connection_pool.cpp:66-68 | One step of the whole-pool loop: a host swept to an empty list is erased. |
| PoolSpec.PartlySweptUpdate | src/mongo/client/connection_pool.cpp:66-71 | One step of the whole-pool loop: a host swept to a non-empty list keeps the swept list. |
| PoolSpec.StaleSweep | src/mongo/client/connection_pool.cpp:107-123 | The stale-host sweep, corrected so that a stale host without an idle list is only marked. It has no `ensures`: it defines the state. `StaleSweepValid`, `StaleSweepRunsIffDue`, `StaleSweepIsGated` and `StaleSweepMarksStaleHosts` state what it promises. |
| PoolSpec.StaleHostHasNoLiveConnections | src/mongo/client/connection_pool.cpp:113-117 | Why `invariant(connList.empty())` holds. A stale host's records were created no later than its last use, so no later than the previous sweep. That is more than five minutes, and so more than 30 seconds, before `now`. |
| PoolSpec.StaleSweepValid | src/mongo/client/connection_pool.cpp:107-123 | The stale-host sweep keeps the pool invariant. |
| PoolSpec.StaleSweepRunsIffDue | src/mongo/client/connection_pool.cpp:108-121 | The sweep changes the pool if and only if more than one interval has passed. When it runs, the sweep time becomes `now` and both containers are unchanged, since the sweep works on a copy. |
| PoolSpec.StaleSweepIsGated | src/mongo/client/connection_pool.cpp:108-121 | After a sweep at `now`, a further call within one interval changes nothing. |
| PoolSpec.StaleSweepMarksStaleHosts | src/mongo/client/connection_pool.cpp:109-118 | When the sweep runs, a host whose last use is not after the previous sweep becomes `kNeverTooStale`. Every other host keeps its time. |
| PoolSpec.StaleSweepAsWritten | src/mongo/client/connection_pool.cpp:107-123 | The stale-host sweep as written. It has no `ensures`: it is undefined (`None`) when a due sweep meets a stale host with no idle list, and otherwise gives the corrected sweep. `StaleSweepAsWrittenUndefined` shows a reachable state where it is undefined. |
| PoolSpec.StaleSweepAsWrittenUndefined | src/mongo/client/connection_pool.cpp:114 | There is a reachable state in which the stale-host sweep dereferences `find()` of a host with no idle list (see Findings). |
| PoolSpec.TryIdle | src/mongo/client/connection_pool.cpp:134-168 | The retry loop over the target's idle records. It has no `ensures`: it defines the state and outcome. `TryIdleStep`, `TryIdleOutcome`, `TryIdleGivesUpIffAllDead`, `TryIdleStopsAtFirstNotDead` and `TryIdleValid` state what it promises. |
| PoolSpec.TryIdleStep | src/mongo/client/connection_pool.cpp:134-168 | One round of the retry loop. An empty swept list marks the host `kNeverTooStale` and stops. Otherwise the front record moves to in-use. A live record is returned. A throwing probe destroys the record and rethrows. A dead record is destroyed and the loop goes on. |
| PoolSpec.TryIdleOutcome | src/mongo/client/connection_pool.cpp:134-168 | The retry loop returns only a record that was idle for the target, is young and probed alive. That record is then at the front of in-use. On giving up or on a throwing probe, the in-use list is as before. |
| PoolSpec.FirstNotDead | src/mongo/client/connection_pool.cpp:134-168 | The position where the retry loop stops: every young record before it probes dead, and the one at it (if any) does not. |
| PoolSpec.TryIdleGivesUpIffAllDead | src/mongo/client/connection_pool.cpp:134-168 | The retry loop gives up if and only if every young idle record of the target probes dead (or there is none). It then leaves the host an empty list marked `kNeverTooStale`, with in-use unchanged. |
| PoolSpec.TryIdleStopsAtFirstNotDead | src/mongo/client/connection_pool.cpp:134-168 | Otherwise the loop stops at the first young record not probed dead. It returns that record at the front of in-use if alive, and destroys it and rethrows if the probe throws. The records behind it become the target's list; `_lastUsedHosts` and `_lastCleanUpTime` are unchanged. |
| PoolSpec.TryIdleValid | src/mongo/client/connection_pool.cpp:134-168 | The retry loop keeps the invariant, makes no identity held again, and leaves the sweep time alone. |
| PoolSpec.GiveUpValid | src/mongo/client/connection_pool.cpp:139-143 | Leaving the empty list and marking the host `kNeverTooStale` keeps the invariant. |
| PoolSpec.TakeFrontRestValid | src/mongo/client/connection_pool.cpp:145-167 | Splicing the front survivor off the idle list keeps the invariant. Afterwards the record's identity is held nowhere, so destroying it is sound. |
| PoolSpec.FrontIdLeavesPool | src/mongo/client/connection_pool.cpp:145-147 | The spliced record was held in the target's list before, and nowhere after. |
| PoolSpec.TakeFrontValid | src/mongo/client/connection_pool.cpp:145-149 | Moving the front survivor to the front of in-use keeps the invariant. |
| PoolSpec.Acquire | src/mongo/client/connection_pool.cpp:125-196 | `acquireConnection` as a state and a result. It has no `ensures`: it defines them. It uses the corrected stale-host sweep `StaleSweep` (see Findings). `AcquireValid`, `AcquireReusesBeforeDialing` and `AcquireTwiceReusesThenDials` state what it promises. |
| PoolSpec.AcquireValid | src/mongo/client/connection_pool.cpp:125-196 | `acquireConnection` keeps the invariant. A returned record is at the front of in-use, belongs to the target and is young. It is either a live idle record of the target or a new record created at `now` after a successful connect. On an error nothing is added, and the dial identity stays unused. A new record means the connect succeeded and, with auth enabled, internal credentials were set and accepted. A 28640 error means the connect failed. `AuthenticationFailed` means auth is enabled without internal credentials. |
| PoolSpec.AcquireReusesBeforeDialing | src/mongo/client/connection_pool.cpp:125-196 | If some young idle record of the target is not probed dead, the first one decides: it is returned if alive, and its probe's exception is rethrown otherwise. Only when all are dead (or none exists) does the pool dial. Then a failed connect gives error 28640, auth enabled without internal credentials gives `AuthenticationFailed`, rejected credentials give the auth error, and each adds nothing to in-use. Otherwise a new record created at `now` is returned at the front of in-use. |
| PoolSpec.AcquireTwiceReusesThenDials | src/mongo/client/connection_pool.cpp:134-195 | With one live idle record, a first acquire reuses it without dialing. A second acquire dials a new record. |
| PoolSpec.Release | src/mongo/client/connection_pool.cpp:198-209 | `releaseConnection` as a state. It has no `ensures`: it defines the state. `ReleaseExact`, `ReleaseValid`, `ReleaseKeptValid` and `ReleaseThenAcquireReturnsIt` state what it promises. |
| PoolSpec.ReleaseValid | src/mongo/client/connection_pool.cpp:198-209 | `releaseConnection` keeps the invariant (given a clock that does not go back). The record leaves in-use. An expired record is held nowhere and the idle lists are unchanged. A young record heads its host's list, and the host's last use becomes `now`. |
| PoolSpec.ReleaseExact | src/mongo/client/connection_pool.cpp:198-209 | Everything `releaseConnection` changes, and nothing else. The record leaves in-use and every other in-use record stays. An expired record is only destroyed: the idle lists and last-use times are unchanged. For a young record, the host's list becomes the record followed by the host's old list swept at `now`, and its last use becomes `now`. Every other host's list and last-use time, and `_lastCleanUpTime`, are unchanged. |
| PoolSpec.ReleaseKeptValid | src/mongo/client/connection_pool.cpp:205-208 | The keeping branch of `releaseConnection` keeps the invariant and puts the record at the front of its host's list. |
| PoolSpec.SweepHostAndStampValid | src/mongo/client/connection_pool.cpp:205-208 | Sweeping a host's list and stamping the host keeps the invariant. |
| PoolSpec.PushFreshIdleValid | src/mongo/client/connection_pool.cpp:207 | Splicing a record held nowhere to the front of its host's list keeps the invariant. |
| PoolSpec.Destroy | src/mongo/client/connection_pool.cpp:211-220 | `destroyConnection` as a state. It has no `ensures`: it defines the state. `DestroyValid` states what it promises. |
| PoolSpec.DestroyValid | src/mongo/client/connection_pool.cpp:211-220 | `destroyConnection` keeps the invariant and removes exactly the destroyed record from in-use. That identity becomes free. The idle lists, the last-use times and `_lastCleanUpTime` are unchanged. |
| PoolSpec.ReleaseThenAcquireReturnsIt | src/mongo/client/connection_pool.cpp:198-209 | A young record that is released and asked for again at once is the one handed out (most recently released first). |
| PoolSpec.InsertFreshValid | src/mongo/client/connection_pool.cpp:194-195 | Inserting a new record at the front of in-use keeps the invariant. |
| PoolSpec.MarkNeverTooStaleValid | src/mongo/client/connection_pool.cpp:141 | Setting a host's last use to the sentinel keeps the invariant. |
| PoolSpec.IdleRecordHeldOnce | src/mongo/client/connection_pool.cpp:145-147 | An idle record's identity is held by no other container and nowhere later in its own list. |
| Pool.ConnectionPool.constructor | src/mongo/client/connection_pool.cpp:49 | A new pool is empty, valid, and stores the port tags. |
| Pool.ConnectionPool.Dispose | src/mongo/client/connection_pool.cpp:51-56 | The destructor sweeps at `Date_t::max()`, after which the idle map is empty. It requires the in-use list to be empty. |
| Pool.ConnectionPool.CleanUpList | src/mongo/client/connection_pool.cpp:76-86 | The in-place erase loop leaves exactly `Survivors` of the list. |
| Pool.ConnectionPool.CleanUpOlderThan | src/mongo/client/connection_pool.cpp:58-61 | Leaves the state `PoolSpec.CleanUpOlderThan` and keeps `Valid`. |
| Pool.ConnectionPool.CleanUpAllHosts | src/mongo/client/connection_pool.cpp:63-74 | The loop over hosts leaves exactly `SweepAll` of the idle map and changes nothing else. |
| Pool.ConnectionPool.CloseAllInUseConnections | src/mongo/client/connection_pool.cpp:97-105 | Shuts down every in-use connection, front to back, and changes no container. |
| Pool.ConnectionPool.CleanUpStaleHosts | src/mongo/client/connection_pool.cpp:107-123 | Leaves the state `StaleSweep` and keeps `Valid`. |
| Pool.ConnectionPool.MarkStaleHosts | src/mongo/client/connection_pool.cpp:109-121 | The loop over last-used hosts checks that each stale host's swept copy is empty, marks the host, and advances the sweep time. |
| Pool.ConnectionPool.AcquireConnection | src/mongo/client/connection_pool.cpp:125-196 | Returns the result of `Acquire`, leaves its state, and keeps `Valid`. It uses the corrected stale-host sweep (see Findings). |
| Pool.ConnectionPool.TryIdleConnections | src/mongo/client/connection_pool.cpp:134-168 | The retry loop leaves the state and outcome of `TryIdle`. |
| Pool.ConnectionPool.TryFrontConnection | src/mongo/client/connection_pool.cpp:137-168 | One round either ends with `TryIdle`'s result, or leaves a shorter target list with the same `TryIdle` outcome. |
| Pool.ConnectionPool.ProbeFront | src/mongo/client/connection_pool.cpp:145-167 | Splices the front record into in-use and probes it. The outcome is returned if alive, rethrown if the probe throws, and the loop goes on if dead. |
| Pool.ConnectionPool.ReleaseConnection | src/mongo/client/connection_pool.cpp:198-209 | Leaves the state `Release` and keeps `Valid`. |
| Pool.ConnectionPool.DestroyConnection | src/mongo/client/connection_pool.cpp:211-214 | Leaves the state `Destroy` and keeps `Valid`. |
| Pool.ConnectionPtr.Open | src/mongo/client/connection_pool.cpp:227-234 | The handle's constructor acquires. It gives an armed handle on success, and on failure it passes the error through. |
| Pool.ConnectionPtr.Done | src/mongo/client/connection_pool.cpp:242-245 | `done` releases the record once and disarms the handle. |
| Pool.ConnectionPtr.Dispose | src/mongo/client/connection_pool.cpp:236-240 | An armed handle destroys its record. A disarmed one does nothing. |

## Left out

- The mutex and the unlocked windows around network calls. Each operation is one atomic step; concurrency is not modelled.
- `DBClientConnection` itself: `connect`, `isStillConnected`, `auth`, the authorization manager and the internal-user credentials. Their outcomes are parameters.
- `setSoTimeout(timeout.count() / 1000.0)` (floating point). The `timeout` argument of `acquireConnection` and of `ConnectionPtr` is therefore not modelled.
- The effect of `port().shutdown()` and of OR-ing `_messagingPortTags` into a new connection's tag. `CloseAllInUseConnections` reports which connections it shut down and changes no container.
- Memory ownership: `delete` in `_destroyConnection_inlock` (line 218). The list copy at line 114 shares its connection pointers with `_connections`. Sweeping the copy (line 115) deletes the expired connections while `_connections` still holds them, and a later sweep (lines 66, 138 or 206) deletes them again. The model follows the copy literally, so the stale-host sweep leaves `_connections` unchanged; the freed objects and the second `delete` are not modelled.
- 64-bit arithmetic on `Date_t`: the invariant keeps every creation date and `_lastCleanUpTime` a clock time (at or after the epoch and at least five minutes below `Date_t::max()`), so `creationDate + 30 s` and `_lastCleanUpTime + 5 min` never overflow. Negative `Date_t` values are not modelled as clock times.
- The header `connection_pool.h` is not part of this model. A default-constructed `Date_t` is taken to be the epoch (0) for `_lastCleanUpTime`.
- Pool.ConnectionPool.ReleaseConnection: requires that no pooled record was created after `now` (a clock that does not go back). The invariant behind line 116 needs it.
- PoolSpec.ReleaseValid: requires the same monotone clock as `ReleaseConnection`.
- Pool.ConnectionPool.AcquireConnection: requires `newId` to be held nowhere, which stands for `new` returning a fresh object. It also requires `now` to be a clock time: a reading at or after the epoch and at least five minutes below `Date_t::max()`. This excludes negative `Date_t` values, which the source accepts.
- Pool.ConnectionPool.CleanUpStaleHosts: requires `now` to be a clock time in the same sense, so it also excludes negative `Date_t` values.
- Pool.ConnectionPtr.Open: inherits the requires of `AcquireConnection`: a fresh `newId` and a clock-time `now`.
- Pool.ConnectionPtr.Done: inherits the monotone-clock requires of `ReleaseConnection`.
- Pool.ConnectionPool.Dispose: `invariant(_inUseConnections.empty())` is a requires. Its failure (an abort) is not modelled.

### Note on the whole-pool sweep

A whole-pool sweep at a time earlier than every creation date is not a no-op.
It removes no record, but it erases the hosts whose idle list is already
empty. Such hosts exist once `acquireConnection` has marked a host
`kNeverTooStale` (line 141), and once it has handed out a host's last idle
record (lines 145-147, returned at line 157). The model follows the code
(`PoolSpec.CleanUpBeforeCreationKeepsRecords`).

## Findings

| source | as written | input that shows it | evidently intended | confidence | as-written member | corrected member |
|---|---|---|---|---|---|---|
| src/mongo/client/connection_pool.cpp:114 | The stale-host sweep does `_connections.find(itr->first)->second` for every stale host in `_lastUsedHosts`. That dereferences the end iterator when the host has no idle list. The whole-pool sweep (line 68) erases such hosts from `_connections` but not from `_lastUsedHosts`. | Dial "a" at 0 and release it at 100. Call `cleanUpOlderThan(30000)`, which erases "a". Call `acquireConnection("b", 400000)` with a failed connect. Then `acquireConnection` at 700001 finds "a" stale and absent. | A stale host with no idle list has nothing to clean and is simply marked `kNeverTooStale`. | not executed | PoolSpec.StaleSweepAsWrittenUndefined | PoolSpec.StaleSweepValid |
