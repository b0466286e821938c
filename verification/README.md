# DBBouncer, verified model

DBBouncer is a multi-tenant connection pooler. Clients speak PostgreSQL or MySQL to it; it keeps
one pool of backend connections per tenant and, in transaction mode, lends a backend to a client
for one transaction at a time. This project models the parts of it whose correctness is not
visible from any single function, and proves what they guarantee:

* **The tenant pool.** `PoolCore` gives each lock hold of `TenantPool` as a function on values,
  `TenantPools` the objects updated in place, proved equal to those functions, and `PoolMachine`
  every interleaving of them by any number of threads, a warm-up goroutine, a reaper and drains.
  `PoolInvariants` is the invariant of all runs, `PoolTheorems` what follows from it,
  `PoolChoice` which connections are handed out, kept and reaped, in terms of their ages and
  pings, `PoolService` when a thread that asks for a connection can get one, and `PoolWitnesses`
  the runs on which an expected guarantee fails.
* **The transaction-mode relays.** `PgRelay` and `MySqlRelay` are the relays as state machines
  over their I/O calls; `PgRelayCode` and `MySqlRelayCode` are the nested loops of the source,
  proved to run through exactly those states for every script of I/O results. `Disposal` is the
  discipline both must follow with pooled connections. `PgTrace` and `MySqlTrace` say what is
  transmitted, on literal messages and packets, and `PgOutcome` what becomes of a connection whose
  session ends with a PostgreSQL server at its other end.
* **The composed PostgreSQL system.** `PgSystem` puts any number of relays on one pool, with a
  model of the server end of each connection: transaction status, leftover session state, unread
  responses. `PgIsolation`, `PgAnswers` and `PgTheorems` prove isolation and transparency over
  every interleaving; `PgCleanup`, `PgCrossing` and `PgViolation` show what happens where they do
  not hold.
* **Codecs and smaller machines.** Message framing (`Wire`), startup and server parameters
  (`Params`, `ParamsMeaning`), MySQL status flags (`MySqlStatus`), the text functions behind pin detection
  (`Text`), SCRAM-SHA-256 (`Scram`), the copy-on-write router (`Routing`) and the accept limit
  (`AcceptLimit`).

`dafny verify dfyconfig.toml` checks the whole project.

## Where the code falls short of what one would expect

Each of these is kept as the code has it, with the exact condition under which the property holds.

* A client lost in the middle of a response makes `cleanupBackend` take the abandoned query's
  ReadyForQuery for ROLLBACK's answer, so the connection goes back to the pool one response behind
  (`internal/proxy/pg_relay.go:127-132`, `251-279`). `PgTheorems.IsolationIff` proves that a pooled
  connection is clean if and only if this never happened on it. Whoever forwards a message on
  another one is shown the unread response first, on every continuation
  (`PgCrossing.NothingElseFirst`, `ForeignShown`), and still looks transparent if and only if its
  own answer begins with the same message (`PgCrossing.TransparentAfterIff`).
  `PgViolation.TransparencyFails` is such a run of the whole system.
* A client that sends Terminate in the middle of a transaction is not rolled back
  (`internal/proxy/pg_relay.go:73-79`). PostgreSQL refuses DISCARD ALL there, so the connection is
  closed and stays counted: it is returned if and only if the server is idle
  (`PgOutcome.TerminateReturnsIff`), whereas a client lost in the same place costs nothing
  (`PgOutcome.LostClientReturns`).
* A connection returned after a forced drain is miscounted (`internal/pool/pool.go:276-286`,
  `343-352`): `total` is right if and only if that never happened (`PoolTheorems.Conservation`), and
  a connection that is idle or handed out is open if and only if it was never returned that way
  (`PoolTheorems.LiveConnections`). `total` can become -1, and for every configuration that allows a
  dial and every number of such returns that many sockets too many can be open (`PoolWitnesses`).
* `PooledConn.Close` does not tell the pool (`internal/pool/conn.go:147-152`). Connections closed
  by their holder stay counted: `total` counts only live connections and dials if and only if there
  is none and no reservation was abandoned (`PoolTheorems.AccountIff`). A thread that asks an open
  pool can be served if and only if there is something to spare (`PoolService.ServesIff`), which
  with `minConns` at most `maxConns` means that fewer than `maxConns` connections were closed this
  way (`PoolService.SpareIffUnleaked`). Every session-mode session ends with such a close
  (`internal/proxy/postgres.go:106`).
* `warmUp` on a closed pool keeps its reservation (`internal/pool/pool.go:133-136`): at most one,
  and only once the pool is closed (`PoolTheorems.Conservation`); it happens
  (`PoolWitnesses.ClosedWarmUpAbandons`).
* A ReadyForQuery without payload during authentication panics (`internal/pool/pool.go:524-529`);
  `Params.PanicIff` says exactly when.
* `drainMySQLResponse` takes the EOF after the column definitions for the end of the result set
  (`internal/proxy/mysql_relay.go:240-248`): a response is relayed whole if and only if none of its
  packets but the last looks terminal (`MySqlTheorems.DrainsWholeIff`).
* Pin detection upper-cases the query text, and dotless i and long s have ASCII capitals, so they
  count as letters of LISTEN and NOTIFY too (`internal/proxy/pg_relay.go:295`,
  `PgRelayTheorems.PinMeans`).
* The connection limit is checked before it is counted, so two listeners can exceed it by one, and
  `k` accept loops by exactly `k - 1` (`AcceptLimit`).
* The repository's own README says that MySQL tenants always use session mode; the code has a
  transaction mode for them (`internal/proxy/mysql.go:106`), which is what `MySqlRelay` models.
* Configuration is validated before defaults are applied (`internal/config/config.go:179-183`), so
  `minConns` may exceed `maxConns`. All pool theorems allow that; the capacity is the larger one.

## Model

| member | source | states |
|---|---|---|
| `PgTheorems.Isolation` | internal/proxy/pg_relay.go:24-153 | On every run of any number of sessions, for every connection on which no client was lost in mid-response: in the pool and when about to be returned it is transaction-idle with no session state and no unread response; when a message is forwarded on it, it has no unread response and no other session's state |
| `PgTheorems.IsolationIff` | internal/proxy/pg_relay.go:127-132 | With servers that end every answer with ReadyForQuery that condition is exact: a pooled connection is clean, and one forwarded on has nothing unread, if and only if no client was ever lost on it in mid-response |
| `PgTheorems.Transparency` | internal/proxy/pg_relay.go:52-152 | A session that forwarded nothing on such a connection has one answer per message it forwarded and has been shown exactly these answers, in order; when it waits for its client all of them, each ending at its ReadyForQuery, and nothing of ROLLBACK or DISCARD ALL exchanges |
| `PgAnswers.EachComplete` | internal/proxy/pg_relay.go:117-151 | If a session's client was shown all its answers and as many responses were counted as complete, each answer ends with ReadyForQuery |
| `PgCrossing.NothingElseFirst` | internal/proxy/pg_relay.go:110-132 | When a session is about to forward a message on a connection that lost its place, then on every continuation of the whole system the next message its client is shown, if any, is the one unread there before its message was sent |
| `PgCrossing.ForeignShown` | internal/proxy/pg_relay.go:110-132 | Whatever the server answers, forwarding, reading and writing show it that message |
| `PgCrossing.TransparentAfterIff` | internal/proxy/pg_relay.go:110-132 | What a session so far shown only its own answers has been shown then is a beginning of its own answers if and only if its answer begins with the foreign message |
| `PgTheorems.OneSessionPerConnection` | internal/proxy/pg_relay.go:24-153 | No two sessions ever hold the same connection, and none holds an idle one |
| `PgTheorems.SessionsBehave` | internal/proxy/pg_relay.go:24-153 | Each session of the composed system is a run of the relay, so disposal and affinity hold of it |
| `PgCleanup.CleanupCleanIff` | internal/proxy/pg_relay.go:251-279 | Whatever the server answers and whichever calls fail, a cleanup that comes to return its connection leaves nothing unread if and only if no ReadyForQuery was unread when it began |
| `PgViolation.PoolGetsDirty` | internal/proxy/pg_relay.go:127-132 | A run of the whole system, for any unpinned query and any row: the client is lost while the row is relayed, and its connection comes back to the pool with the answer to DISCARD ALL unread |
| `PgViolation.TransparencyFails` | internal/proxy/pg_relay.go:118-132 | That run continued: the next client is shown the other session's response first, and what it is shown is no prefix of its own answers unless its answer begins with the same message |
| `PgRelayTheorems.DisposedExactlyOnce` | internal/proxy/pg_relay.go:28-153 | On every run of the relay each connection taken is returned or closed exactly once, used only while held, and none is held once the relay has ended |
| `PgRelayTheorems.AffineRun` | internal/proxy/pg_relay.go:47-152 | On every run, at the top of the loop a backend is held if and only if a message has been forwarded and the session is pinned or its last ReadyForQuery was not idle; so consecutive messages of a transaction go to one backend |
| `PgRelayTheorems.PinnedForGood` | internal/proxy/pg_relay.go:98-108 | From a pinning message on, every message goes to the same backend |
| `PgTrace.LostClientRollsBack` | internal/proxy/pg_relay.go:251-279 | Whenever the context is cancelled or the client is found gone while a connection is held: on every continuation the first thing transmitted is the query ROLLBACK on it, and all that is written after it is DISCARD ALL, not before a ReadyForQuery was read |
| `PgTrace.ForwardsInOrder` | internal/proxy/pg_relay.go:62-115 | On every run what is forwarded is what the client sent, unchanged and in order; at most the last message read is missing |
| `PgTrace.TerminateNotForwarded` | internal/proxy/pg_relay.go:73-79 | On no run is a Terminate message forwarded to a backend |
| `PgOutcome.LostClientReturns` | internal/proxy/pg_relay.go:251-279 | With a PostgreSQL server that refuses DISCARD ALL inside a transaction, and no I/O failure: a client lost on a connection with nothing unread, in whatever transaction status, leaves it returned to the pool clean, never closed |
| `PgOutcome.TerminateReturnsIff` | internal/proxy/pg_relay.go:73-79 | With the same server a client that sends Terminate leaves its connection returned if and only if the server is idle, and closed if and only if it is not |
| `PgRelayTheorems.PinMeans` | internal/proxy/pg_relay.go:282-302 | Exactly these messages pin: a Parse of a named statement, and a simple query whose text, decoded from UTF-8, begins after Unicode white space and in any mixture of cases with LISTEN or NOTIFY |
| `PgRelayTheorems.AsciiPinMeans` | internal/proxy/pg_relay.go:292-299 | For queries of ASCII bytes: exactly those pin that begin, after ASCII white space, with LISTEN or NOTIFY in any mixture of cases |
| `Text.NormalMeans` | internal/proxy/pg_relay.go:294-298 | A trimmed and upper-cased text begins with a word of capitals if and only if the first word of the text does, in any mixture of cases |
| `Text.NormalBegins` | internal/proxy/mysql_relay.go:150-153 | The same for a prefix that contains white space or ends in it: at the end, trimming spares it exactly if something else follows |
| `Text.NormalContains` | internal/proxy/mysql_relay.go:150-152 | A trimmed and upper-cased text contains a word without white space if and only if the text does, in any mixture of cases |
| `PgRelayCode.RelayTransactionMode` | internal/proxy/pg_relay.go:24-153 | The source's loops run through exactly the states of the machine, for every script of I/O results |
| `PgRelayCode.MessageLoop` | internal/proxy/pg_relay.go:52-152 | The message loop does, from any state at its top |
| `PgRelayCode.Exchange` | internal/proxy/pg_relay.go:81-115 | Acquiring if needed, pinning and forwarding one message does |
| `PgRelayCode.RelayResponses` | internal/proxy/pg_relay.go:117-151 | Relaying the responses up to ReadyForQuery and releasing at idle does |
| `PgRelayCode.ResetAndReturn` | internal/proxy/pg_relay.go:195-247 | DISCARD ALL and return or close does, and ends with the connection disposed of or the call blocked |
| `PgRelayCode.DrainDiscard` | internal/proxy/pg_relay.go:211-246 | The loop that reads the answer to DISCARD ALL does |
| `PgRelayCode.HandBack` | internal/proxy/pg_relay.go:222-228 | Returning the connection does |
| `PgRelayCode.CleanupBackend` | internal/proxy/pg_relay.go:251-279 | ROLLBACK, then reset and return, does |
| `Disposal.TakenOnceDisposedOnce` | internal/pool/conn.go:147-179 | Under the discipline each connection is returned or closed as often as it is taken, once less if still held |
| `Disposal.AllDisposed` | internal/pool/conn.go:147-179 | Once nothing is held, exactly as often, for every connection |
| `Disposal.PinHolds` | internal/proxy/pg_relay.go:98-108 | Stickiness plus one pinning message keep all later messages on its connection |
| `MySqlTheorems.DisposedExactlyOnce` | internal/proxy/mysql_relay.go:53-210 | The same exactly-once disposal for every run of the MySQL relay |
| `MySqlTheorems.AffineRun` | internal/proxy/mysql_relay.go:104-208 | A command goes to the backend of the one before unless the response between them ended a transaction and nothing so far pins the session; a transaction is noted exactly while a used backend is held. `MySqlTrace.OkDecides`, `EofDecides` and `ErrEnds` say which packets end one |
| `MySqlTheorems.PinnedForGood` | internal/proxy/mysql_relay.go:142-170 | From a pinning command on, every command goes to the same backend |
| `MySqlTheorems.PinMeans` | internal/proxy/mysql_relay.go:138-163 | Exactly these commands pin: COM_STMT_PREPARE, COM_SET_OPTION, and a COM_QUERY whose decoded text begins after white space with LOCK and a space or START TRANSACTION, or contains GET_LOCK( anywhere, in any mixture of cases |
| `MySqlTrace.LostClientRollsBack` | internal/proxy/mysql_relay.go:106-121 | The client is gone while a transaction is noted: on every continuation the next write that succeeds is COM_QUERY ROLLBACK, then only COM_RESET_CONNECTION, and without failures not before the answer to ROLLBACK has ended |
| `MySqlTrace.LostClientDisposes` | internal/proxy/mysql_relay.go:302-314 | Reading that answer stops at its first OK, ERR or short EOF packet or at a failure, whatever came before; then the connection is returned if and only if the reset is sent and answered by anything but ERR, and closed otherwise |
| `MySqlTrace.QuitOnlyResets` | internal/proxy/mysql_relay.go:130-136 | When the client quits, or is gone with no transaction noted, nothing but COM_RESET_CONNECTION is written |
| `MySqlTrace.NotedIffKept` | internal/proxy/mysql_relay.go:179-182 | On every run, while the relay waits for its client, a transaction is noted if and only if a used backend is kept |
| `MySqlTrace.ForwardsInOrder` | internal/proxy/mysql_relay.go:104-188 | On every run the commands forwarded are those the client sent, unchanged and in order, empty packets left out; at most the last one read is missing |
| `MySqlTrace.OkDecides` | internal/proxy/mysql_relay.go:239-249 | After an OK packet with any counts and any status, relaying goes on if bit 3 of the status is set; else the backend is kept if bit 0 is set or the session is pinned, and reset and given up otherwise |
| `MySqlTrace.EofDecides` | internal/proxy/mysql_relay.go:239-249 | The same after an EOF packet |
| `MySqlTrace.ErrEnds` | internal/proxy/mysql_relay.go:234-237 | A packet that begins with 0xff always ends response and transaction |
| `MySqlTrace.OthersContinue` | internal/proxy/mysql_relay.go:229-257 | After any other packet, or an empty one, relaying goes on |
| `MySqlTrace.ResetAnswer` | internal/proxy/mysql_relay.go:88-101 | The answer to the reset closes the connection if it begins with 0xff, and returns it otherwise |
| `MySqlTheorems.DrainsWholeIff` | internal/proxy/mysql_relay.go:220-258 | A response is relayed whole and in order, with nothing left unread, if and only if only its last packet looks terminal |
| `MySqlTheorems.DrainStops` | internal/proxy/mysql_relay.go:220-258 | Relaying stops right after the first packet that looks terminal, and the rest is left unread |
| `MySqlTheorems.DrainTells` | internal/proxy/mysql_relay.go:220-258 | Everything up to there has been relayed, in order |
| `MySqlTheorems.ResultSetCutShort` | internal/proxy/mysql_relay.go:240-248 | Of every text result set the rows and the last EOF are left unread |
| `MySqlRelayCode.RelayTransactionMode` | internal/proxy/mysql_relay.go:46-210 | The source's loops run through exactly the states of the machine, for every script of I/O results |
| `MySqlRelayCode.MessageLoop` | internal/proxy/mysql_relay.go:104-208 | The command loop does, from any state at its top |
| `MySqlRelayCode.Exchange` | internal/proxy/mysql_relay.go:172-208 | Acquiring if needed and relaying one command does |
| `MySqlRelayCode.ForwardCommand` | internal/proxy/mysql_relay.go:186-208 | Forwarding, draining and releasing at a boundary does |
| `MySqlRelayCode.DrainResponse` | internal/proxy/mysql_relay.go:220-258 | Relaying a response does, and its result says whether it ended a transaction |
| `MySqlRelayCode.ResetAndReturn` | internal/proxy/mysql_relay.go:79-102 | COM_RESET_CONNECTION and return or close does |
| `MySqlRelayCode.ReadResetResult` | internal/proxy/mysql_relay.go:88-101 | Reading its result and closing or returning does |
| `MySqlRelayCode.Rollback` | internal/proxy/mysql_relay.go:302-314 | ROLLBACK with its result ignored, and reading up to OK, ERR, EOF or failure, does |
| `MySqlRelayCode.Disconnect` | internal/proxy/mysql_relay.go:106-123 | What happens when the client is gone or quits does |
| `MySqlStatus.OkStatus` | internal/proxy/mysql_relay.go:261-274 | Whatever the two counts of an OK packet and whichever of the four size classes encodes each, the 16-bit status read from it is the status sent |
| `MySqlStatus.EofStatus` | internal/proxy/mysql_relay.go:274-279 | The same for EOF packets |
| `MySqlStatus.StatusLayout` | internal/proxy/mysql_relay.go:261-279 | A 16-bit status travels as its low byte and then its high byte |
| `MySqlStatus.NoStatus` | internal/proxy/mysql_relay.go:272-278 | A packet shorter than five bytes, or of another kind, counts as status 0 |
| `MySqlStatus.SkipsOne` | internal/proxy/mysql_relay.go:282-299 | Skipping a length-encoded integer ends exactly behind it, for every value, size class and context |
| `MySqlStatus.LenEncEncodes` | internal/proxy/mysql_relay_test.go:459-483 | The repository's own encoder is one of those encodings |
| `PoolTheorems.ExclusiveOwnership` | internal/pool/pool.go:147-292 | On every interleaving, forced drains included: no duplicate in the idle list, idle and active disjoint, no connection idle and held or held twice |
| `PoolTheorems.Conservation` | internal/pool/pool.go:101-371 | On every run `total` is idle + active + dials in flight + abandoned reservations, less the stale returns; so it is exact if and only if there were none; at most one reservation is abandoned and only on a closed pool; `waiting` counts the waiting threads |
| `PoolTheorems.ConservationUnforced` | internal/pool/pool.go:314-356 | Without a forced drain the count is exact |
| `PoolTheorems.CapacityBound` | internal/pool/pool.go:199-216 | On every run `total` is within max(minConns, maxConns), although the lock is released while dialling, and open sockets plus dials exceed it by at most the stale returns |
| `PoolTheorems.ExhaustedCounts` | internal/pool/pool.go:218-222 | In every step from a reachable state the exhaustion counter goes up by one exactly if a thread found nothing and begins to wait, and is unchanged otherwise |
| `PoolTheorems.Account` | internal/pool/pool.go:101-371 | On every run `total` plus the stale returns is open sockets + dials in flight + connections closed by their holders + stale connections idle or held + abandoned reservations |
| `PoolTheorems.AccountIff` | internal/pool/conn.go:147-152 | Without stale returns `total` counts only open sockets and dials if and only if no holder closed its connection and no reservation was abandoned |
| `PoolTheorems.ReapRemovesTimedOutPrefix` | internal/pool/pool.go:886-907 | In every reachable state with lifetime expiry off, a sweep removes exactly the longest timed-out prefix that leaves minConns connections, closes it and uncounts as many |
| `PoolTheorems.CloseIsFinal` | internal/pool/pool.go:359-371 | Once closed, on every continuation an empty idle list stays empty, whoever has a connection has had that one all along or had its dial in flight at the close, and every return closes its connection |
| `PoolTheorems.LeakIsFatal` | internal/pool/conn.go:147-152 | Once holders have closed as many connections as the pool may count, no thread ever has a connection again, on any continuation without a forced drain |
| `PoolService.ServesIff` | internal/pool/pool.go:147-258 | On an open pool with no stale connection returned or out, a thread that asks gets a connection on some continuation without a forced drain if and only if there is room for a dial, an unexpired connection in circulation, a dial in flight, or a connection the warm-up will add; otherwise on none |
| `PoolService.SpareIffUnleaked` | internal/pool/conn.go:147-152 | With minConns at most maxConns that is so if and only if holders have closed fewer than maxConns connections |
| `PoolService.StarvedRun` | internal/pool/pool.go:147-258 | A pool with nothing to spare stays so, and no thread that has no connection gets one |
| `PoolTheorems.LiveConnections` | internal/pool/pool.go:171-196 | On every run a connection that is idle, or handed out and registered, is open if and only if it was never returned after a forced drain had removed it; one just dialled is open |
| `PoolWitnesses.StaleReturnHandsOutDeadConnection` | internal/pool/pool.go:182-195 | A run on which a stale return leads to a closed connection being handed out |
| `PoolWitnesses.StaleReturnMakesTotalNegative` | internal/pool/pool.go:276-286 | A run on which `total` becomes -1 |
| `PoolWitnesses.CapacityBoundReached` | internal/pool/pool.go:343-352 | For every configuration that allows a dial and every number of stale returns, a run with `total` at the capacity, above maxConns if minConns is, and that many more sockets open |
| `PoolWitnesses.ClosedWarmUpAbandons` | internal/pool/pool.go:133-136 | For every configuration with a warm-up, a run whose reservation is never given back: `total` is 1 with nothing open, dialling or held |
| `PoolWitnesses.OneCloseExhausts` | internal/pool/conn.go:147-152 | A run after which a pool of one never serves anyone again |
| `PoolInvariants.InvReach` | internal/pool/pool.go:101-371 | The invariant of all runs: ownership, counting, and the idle list ordered by last use |
| `PoolCore.TakeIdleMeans` | internal/pool/pool.go:171-196 | Acquire's inner loop takes the connection at the last usable position, discards exactly the newer ones, and touches nothing else; `PoolChoice` says what usable means |
| `PoolCore.LastUsableMeans` | internal/pool/pool.go:171-196 | That connection is usable and no newer one is; or none is |
| `PoolChoice.AcquireChoice` | internal/pool/pool.go:171-216 | One lock hold of Acquire: a connection handed out is idle, within its lifetime, and authenticated or answering; every newer idle one fails one of these, is closed and gone, older ones are untouched; if none is handed out all failed and are gone; a closed pool refuses and is unchanged |
| `PoolChoice.AcquireChoiceReach` | internal/pool/pool.go:171-216 | On every run, a thread that acquires an idle connection gets the most recently returned one that is young enough and answers |
| `PoolChoice.WakeChoiceReach` | internal/pool/pool.go:241-257 | So does one that wakes up from waiting |
| `PoolChoice.ReturnChoice` | internal/pool/pool.go:272-292 | A returned connection goes to the end of the idle list with a new time of last use, or is closed and uncounted if the pool is closed or its lifetime is over |
| `PoolChoice.SweepChoice` | internal/pool/pool.go:886-907 | On every run, expiry included, a sweep removes and closes an idle connection if and only if at least minConns connections come after it in the list and its idle time or its age exceeds its limit; the others are unchanged |
| `PoolChoice.SweepLeaves` | internal/pool/pool.go:886-907 | Connections that are not idle are not touched, and `total` goes down by the number removed |
| `PoolCore.KeptMeans` | internal/pool/pool.go:890-906 | The reaper keeps exactly the connections its test spares, once each |
| `PoolCore.ReturnWf` | internal/pool/pool.go:272-292 | Returning keeps the pool well-formed if and only if the connection was not already idle, or is closed by the return |
| `PoolOrigins.Origins` | internal/pool/pool.go:101-371 | In every other step connections in use stay in the same hands, and what becomes idle or is handed out was idle, just dialled, or the warm-up's |
| `TenantPools.TenantPool.TryAcquire` | internal/pool/pool.go:165-216 | One lock hold of Acquire changes the object as the function on values does, with the same outcome |
| `TenantPools.TenantPool.TakeIdle` | internal/pool/pool.go:171-196 | So does the loop over idle connections |
| `TenantPools.TenantPool.Wake` | internal/pool/pool.go:241-257 | So does the lock hold after `cond.Wait` |
| `TenantPools.TenantPool.StopWaiting` | internal/pool/pool.go:229-235 | So does giving up waiting |
| `TenantPools.TenantPool.Unreserve` | internal/pool/pool.go:203-209 | So does a failed dial |
| `TenantPools.TenantPool.Dial` | internal/pool/pool.go:373-402 | A dial adds one fresh, unregistered connection |
| `TenantPools.TenantPool.Publish` | internal/pool/pool.go:211-215 | Registering a connection as active does what its function does |
| `TenantPools.TenantPool.Return` | internal/pool/pool.go:272-292 | Return does, and keeps the pool valid if the handle was not already idle |
| `TenantPools.TenantPool.StoreIdle` | internal/pool/pool.go:285-286 | Appending to the idle list does |
| `TenantPools.TenantPool.ReapIdle` | internal/pool/pool.go:886-907 | The reaper's loop does |
| `TenantPools.TenantPool.DrainIdle` | internal/pool/pool.go:314-326 | Drain's first lock hold does |
| `TenantPools.TenantPool.ForceDrain` | internal/pool/pool.go:343-352 | Drain's forced lock hold does |
| `TenantPools.TenantPool.Close` | internal/pool/pool.go:359-371 | Closing sets the flag once and reports whether it was the first |
| `TenantPools.TenantPool.WarmReserve` | internal/pool/pool.go:102-109 | The warm-up reserves if and only if the pool is open and below minConns |
| `TenantPools.TenantPool.WarmStore` | internal/pool/pool.go:132-142 | The warm-up stores its connection, or on a closed pool drops it without giving its reservation back |
| `TenantPools.PooledConn.MarkActive` | internal/pool/conn.go:94-99 | The state and the time of last use change, nothing else |
| `TenantPools.PooledConn.MarkIdle` | internal/pool/conn.go:102-107 | The same for idle |
| `TenantPools.PooledConn.Close` | internal/pool/conn.go:147-152 | The socket is closed and the state says so; no pool field is in its frame |
| `Wire.FrameRoundTripPG` | internal/proxy/postgres.go:336-374 | Reading back a written frame followed by anything gives the message and leaves the rest, if and only if the payload is at most 2^24 bytes |
| `Wire.StreamFramingPG` | internal/proxy/postgres.go:336-374 | A stream of such frames and any suffix is read back exactly, leaving the suffix |
| `Wire.StreamFraming` | internal/proxy/postgres.go:336-374 | For any codec that reads each frame back whatever follows it, so is any stream of frames and any suffix |
| `Wire.FrameRoundTripMySQL` | internal/proxy/mysql.go:326-361 | The same for MySQL packets and sequence numbers, if and only if the payload is below 2^24 bytes |
| `Wire.StreamFramingMySQL` | internal/pool/pool.go:832-860 | The same for streams of MySQL packets |
| `Wire.FrameLayoutPG` | internal/proxy/postgres.go:366-374 | The bytes of a frame: kind, length plus four in big-endian order, payload |
| `Wire.FrameLayoutMySQL` | internal/proxy/mysql.go:349-361 | The bytes of a packet: length in little-endian order, sequence number, payload |
| `Wire.ReadPGMessage` | internal/proxy/postgres.go:336-363 | The stream reader consumes and returns what the decoder says, and fails where it does |
| `Wire.WritePGMessage` | internal/proxy/postgres.go:366-374 | The writer's buffer is the encoding |
| `Wire.ReadMySQLPacket` | internal/proxy/mysql.go:326-346 | The stream reader consumes and returns what the decoder says |
| `Wire.WriteMySQLPacket` | internal/proxy/mysql.go:349-361 | The writer's buffer is the encoding |
| `Params.StartupRoundTrip` | internal/pool/pool.go:421-446 | For every list of NUL-free pairs, parsing the encoding the pool uses gives its last-wins map |
| `Params.LastWinsMeans` | internal/proxy/postgres.go:172-199 | The value of a key is that of its last pair, and only keys of some pair are present |
| `Params.ParseStartup` | internal/proxy/postgres.go:172-199 | The parsing loop terminates on every byte string and computes the parsed map |
| `Params.ParseNullTerminatedPair` | internal/pool/pool.go:555-569 | The nested index loops compute the NUL-terminated pair, with the source's fall-backs for missing NULs |
| `Params.ParsePairOf` | internal/pool/pool.go:555-569 | A NUL-terminated key and value are read back |
| `ParamsMeaning.ParsePairMeans` | internal/pool/pool.go:555-569 | Without a NUL there is no pair; with one the rest is the value; with more the value ends at the second |
| `ParamsMeaning.ParsePairsMeans` | internal/proxy/postgres.go:172-199 | Every byte string is a list of complete pairs and an incomplete rest, and parsing it gives the last-wins map of those pairs |
| `Params.AuthenticateLoop` | internal/pool/pool.go:452-540 | The authentication loop computes what the recursive description of it says, panics included |
| `ParamsMeaning.AuthVerdict` | internal/pool/pool.go:452-540 | Whatever the backend sends, the first ending message decides: ready if and only if it is a ReadyForQuery whose status is idle, panic if and only if that has no payload, failure if and only if it is any other, still waiting if and only if there is none; the ending messages are named by their bytes |
| `Params.PanicIff` | internal/pool/pool.go:524-529 | It panics if and only if the first message that ends it is a ReadyForQuery without payload |
| `Params.StatusesLastWins` | internal/pool/pool.go:511-516 | ParameterStatus messages leave their last-wins map |
| `Params.SendSyntheticAuthOK` | internal/proxy/pg_relay.go:157-191 | The synthetic authentication lists the cached map completely, in whatever order it is iterated |
| `Params.SyntheticIsFaithful` | internal/proxy/pg_relay.go:157-191 | Whatever a backend sent, a client reading the synthetic authentication in any iteration order ends up with the same parameters, process ID and key |
| `Params.ParseSASLMechanisms` | internal/pool/scram.go:112-128 | The loop computes the list of names |
| `Params.MechanismsRoundTrip` | internal/pool/scram.go:112-128 | Every list of nonempty NUL-free names is read back exactly |
| `ParamsMeaning.MechanismsMeans` | internal/pool/scram.go:112-128 | Whatever the list, empty names and a missing last NUL included, the result is its nonempty names in order |
| `Scram.ScramCompletes` | internal/pool/scram.go:40-108 | The honest server of RFC 5802 sees only the text the client sends. For any user name, password, nonces and salt it reads the greeting and challenges; the client answers if and only if the iteration count is between 1 and 2^63 - 1; then the server accepts its proof, both sign the same AuthMessage, and the client accepts the server's signature |
| `Scram.AuthMessageLayout` | internal/pool/scram.go:75-80 | What is signed, letter by letter, as section 3 of RFC 5802 has it |
| `Scram.AnswersIff` | internal/pool/scram.go:58-67 | The client answers a challenge if and only if its iteration count is between 1 and 2^63 - 1 and its nonce begins with the client's |
| `Scram.HelloRead` | internal/pool/scram.go:40-45 | From the greeting of any user name and nonce the server reads back that name and nonce |
| `Scram.AttributesOf` | internal/pool/scram.go:140-158 | The server-first-message is read back exactly if the iteration count fits an integer and is not zero, and refused otherwise |
| `Scram.ParseServerFirstLoop` | internal/pool/scram.go:140-158 | The parsing loop computes the attributes, last one wins, with the source's failures |
| `Scram.EscapeIsOnePass` | internal/pool/scram.go:161-165 | The two replacement passes equal the one-pass escape of section 5.1 of RFC 5802 |
| `Scram.EscapeInverts` | internal/pool/scram.go:161-165 | An escaped name has no comma and the original can be recovered |
| `Scram.XorBytes` | internal/pool/scram.go:270-276 | The loop computes the bytewise exclusive or |
| `Scram.XorTwice` | internal/pool/scram.go:82-83 | The server recovers the client key from the proof |
| `Routing.MutationRefines` | internal/router/router.go:79-182 | Each mutation keeps paused tenants among the known ones and is one update of the abstract table of (configuration, paused) and defaults |
| `Routing.EveryStateRefines` | internal/router/router.go:29-182 | So does every sequence of mutations from every configuration |
| `Routing.RemovedTenantComesBackUnpaused` | internal/router/router.go:89-103 | A tenant removed and added again is not paused |
| `Routing.ReloadKeepsPauses` | internal/router/router.go:159-182 | A reload replaces tenants and defaults and keeps the pause of exactly the tenants that survive it |
| `Routing.Router.AddTenant` | internal/router/router.go:79-86 | Publishes a fresh snapshot with that one change; no snapshot ever published changes |
| `Routing.Router.RemoveTenant` | internal/router/router.go:89-103 | The same; for an unknown tenant nothing is published and false is returned |
| `Routing.Router.PauseTenant` | internal/router/router.go:106-119 | The same for pausing |
| `Routing.Router.ResumeTenant` | internal/router/router.go:122-135 | The same for resuming |
| `Routing.Router.ReloadTable` | internal/router/router.go:159-182 | The same for a reload, with its loop over the paused tenants |
| `Routing.Router.CloneSnap` | internal/router/router.go:51-66 | A fresh snapshot of equal value |
| `Routing.Router.Resolve` | internal/router/router.go:69-76 | Agrees with the abstract table, unknown tenants included |
| `Routing.Router.IsPaused` | internal/router/router.go:138-140 | Agrees with the abstract table |
| `Routing.Router.constructor` | internal/router/router.go:29-42 | The first snapshot holds the configuration and nothing paused |
| `AcceptLimit.OvershootBound` | internal/proxy/server.go:108-144 | With k accept loops and a positive limit, connections counted plus those about to be counted never exceed the limit by more than k - 1 |
| `AcceptLimit.OvershootHappens` | internal/proxy/server.go:125-135 | For every k and limit some run reaches that bound, so the limit itself is kept on all runs only with a single loop |
| `AcceptLimit.ActiveCounts` | internal/proxy/server.go:136-142 | On every run the counter is the number of connections counted less the number finished |
| `AcceptLimit.Unlimited` | internal/proxy/server.go:125-126 | A limit of zero or less admits any number |

## Left out

- Sockets, TLS, deadlines, clocks and `Ping`: every I/O call may succeed or fail at any time, and the clock advances by arbitrary amounts.
- Liveness: that waiters are eventually woken, and fairness among them.
- Progress of extended-query and COPY messages in the PostgreSQL relay: it waits for ReadyForQuery after each message, so such runs are blocked ones.
- Server messages that no client message asked for (notices, notifications, parameter changes): the server model only answers.
- What a backend does with a message: any answer with at most one ReadyForQuery at its end is allowed; DISCARD ALL is trusted to clear session state when it is answered without an error and the status is idle.
- Isolation between MySQL clients: not claimed, because responses can be cut short (`MySqlTheorems.ResultSetCutShort`).
- Session-mode handlers and the MySQL handshakes (`internal/proxy/postgres.go`, `internal/proxy/mysql.go`, `internal/pool/pool.go:604-800`): mostly I/O ordering.
- The SSL negotiation loop and the tenant lookup in `readStartupMessage`: only the parameter loop is modelled.
- Case mapping of runes other than those that become ASCII: pin detection compares with ASCII words only.
- SHA-256, HMAC, PBKDF2, base64 and random numbers: parameters of `Scram`, with fixed lengths and base64 as an invertible encoding without commas.
- `PoolService.ServesIff`: says that a continuation exists, not that it happens; fairness among waiting threads is not modelled.
- The pool as a whole `Acquire` call: its lock holds are methods and its loop across them is the state machine of `PoolMachine`.
- That `warmUp` authenticates a connection which `dial` has already authenticated: its failure is a nondeterministic step of the warm-up.
- `Manager`, `Stats`, the health checker, metrics, the API, configuration loading and the file watcher: plumbing, or easy folds. The health checker may close a connection and then return it, which the linear use of handles in `PoolMachine` excludes.
- `parseErrorMessage` and `ExtractTenantFromUsername`: simple string functions.
- `Routing`: readers concurrent with a mutation see either snapshot; the memory model behind the atomic swap is not modelled.
