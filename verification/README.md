# Orama gateway and deployment cores, verified

A Dafny model of the stateful cores of the Orama network's gateway and deployment
packages, with proofs about every run of them:

- **RateLimiter.dfy**: the per-client token bucket and the sweep of idle buckets. A request is
  let in exactly when it overfills no time window, and sweeping is invisible, and the limit
  kept, exactly when an idle bucket has had time to refill.
- **CircuitBreaker.dfy**: the per-target breaker as a function of its call history, and when
  exactly a probe is the only one in flight.
- **Failover.dfy**: the canonical order of a namespace's gateways, and the selection loop over a
  registry of breakers, alone and with many requests interleaved.
- **PortAllocator.dfy**: optimistic port allocation by concurrent callers over one table, with
  the retry loop, charged retries and exact counts of free ports.
- **PortRuns.dfy**: how long a call holds its port, when exactly the port is given out again, and
  every way in which a call can run out of retries.
- **Placement.dfy**: the capacity score, the home node, and replica selection as a prefix of
  the stable ranking.
- **KeyCache.dfy**: exactly how stale an answer of the API-key cache can be.
- **LogBatcher.dfy**: when batched request logs leave what the per-request writer does.
- **Hops.dfy**: when a request crosses more than one node boundary, when it can be forwarded
  without end, and when only its own deployment can answer it.
- **Identity.dfy**: the validated identity carried in headers between gateways.
- **ClaimsProvider.dfy**: canonical truncation of provider claims.
- **Sequences.dfy**, **Wrappers.dfy**: sorting, rearrangement, string order and optional values
  used by the others.

`dafny verify dfyconfig.toml` checks everything.

Go objects that methods update are classes; their methods are specified by functions on
values, and runs are sequences of those functions' steps. Concurrent code is a step machine
whose steps are the sections between database calls or under one lock, in any interleaving.

## Assumptions

- Floating-point numbers are reals; clock readings are reals and, where a statement says so,
  do not run backwards. The sustained rate is not negative where sweeps are concerned.
- Node ids are distinct (they are a primary key), and no negative replica count is asked for:
  Go panics on one.
- The database answers with committed state. `port_allocations` enforces its primary key
  (node, port). The schema (core/migrations/007_deployments.sql:53-61) also declares a foreign
  key; a failure of it, like any other database failure, is a failed query or insert with some
  error text.
- Errors are told apart by their text, as in the code. A uniqueness violation reads as SQLite
  words it.
- The write of a log batch counts as happening when it asks for the ids of its keys, and keys
  are unique with positive ids, as the schema has it.
- In Hops.dfy the nodes read the same deployment and replica rows, and a local port answers or
  does not for as long as the request travels.
- Hashing, JSON and base64 are parameters. The claims encoding is assumed lossless where the
  round trip is stated.
- Strings are compared character by character, which for UTF-8 is Go's byte order. In
  ClaimsProvider.dfy a character stands for one byte, because lengths matter there.

## Where the code differs from what it says

- Replica selection promises "up to count" nodes. The loop guard compares the counter with a
  list that shrinks every round, so at most half of the candidates, rounded up, are picked
  (`Placement.FullCountIff`).
- The comment on the cache says the lifetime of entries bounds how long a revoked key resolves.
  It does if and only if no time passes between reading a row and caching it
  (`KeyCaching.LifetimeBoundsIff`); the exact bound is the lifetime plus that time
  (`KeyCaching.BoundsStalenessIff`).
- "Only one probe at a time" holds for a probe if and only if, when it went out, no other probe
  was in flight and no other request in flight could report (`CircuitBreaking.OneProbeIff`).
  Otherwise the late failure of the older request releases a second one
  (`CircuitBreaking.TwoProbesInFlight` is such a run). Requests that became WebSocket connections
  never report; a probe among them shuts the target out for good
  (`CircuitBreaking.LostProbeRefusesForever`).
- A request that carries the loop-prevention header is served from the home node's port even on
  a replica that listens on another one, and is passed on when nothing answers there. A healthy
  cluster forwards twice (`Hops.HealthyClusterHopsTwice`); one boundary is crossed if and only
  if no node forwarded to would pass the request on (`Hops.HopsOnceIff`). Routes of every length
  exist if and only if a route can come back (`Hops.EndlessIffComesBack`); with node ids set,
  if and only if the request reaches a node that passes it on and two replicas do not answer on
  the home node's port, or there are no replicas (`Hops.EndlessIffLoops`). One of the two may be
  alive on its own port (`Hops.LiveReplicaLoops`).
- Ports are handed out per node, so the home node's port may be another deployment's port on a
  replica, which then answers the stamped request (`Hops.OtherDeploymentAnswers`).
  `Hops.ReachesOnlyOwnIff` says when it cannot happen.
- A port is released by deployment, not by node: when a replica fails to start or is torn down,
  the row of the home node goes too. Releasing undoes an allocation if and only if the deployment
  held no other port (`PortAllocation.DeallocateUndoesIff`). Afterwards the home node's port is
  given to another deployment while its process still listens (`PortRuns.GivenOutTwice`). A
  recorded port is never given out again, and an unrecorded one can always be
  (`PortRuns.HeldUntilReleased`, `PortRuns.GivenAgainIff`).
- A batch of logs resolves its keys when it is written. A key deleted after the request was
  served, as when its namespace is deleted, leaves a row without an id
  (`LogBatching.DeletedKeyShows`).
- "Or returns existing assignment": a failed lookup of the home node is taken for a missing one.
  The existing home is returned if and only if the lookup is answered or that home is the node a
  new namespace would get (`Placement.HomeIsKeptIff`); otherwise it is overwritten
  (`Placement.FailedLookupMovesHome`).
- A database error whose text happens to contain "constraint" or "conflict" is retried like a
  lost race (`PortAllocation.WordingAloneExhausts`). The foreign key of the port table is one:
  the deployment's row is inserted after its port is taken
  (`PortAllocation.ForeignKeyExhausts`).
- With a burst below one the first request is let in all the same
  (`RateLimiting.ExactIffBurstPositive`).

## Model

| member | source | states |
|---|---|---|
| RateLimiting.RateLimiter.constructor | core/pkg/gateway/rate_limiter.go:37-43 | no buckets; the per-minute rate becomes tokens per second |
| RateLimiting.RateLimiter.Allow | core/pkg/gateway/rate_limiter.go:46-70 | a new client gets in and keeps burst - 1; a known one has its tokens refilled, capped at the burst, and gets in iff a whole one is there; the check time is now; only this client's bucket changes |
| RateLimiting.RateLimiter.Cleanup | core/pkg/gateway/rate_limiter.go:73-83 | a bucket stays iff it was checked at the cutoff or later, whatever the iteration order |
| RateLimiting.LevelBelowEveryWindow | core/pkg/gateway/rate_limiter.go:57-69 | in every run, no window opening at a request of the client leaves less than the bucket level |
| RateLimiting.SomeWindowIsTight | core/pkg/gateway/rate_limiter.go:57-69 | in every run, some such window leaves exactly the bucket level |
| RateLimiting.WindowsDecide | core/pkg/gateway/rate_limiter.go:46-70 | a request is admitted if and only if, for every window from a request of this client up to now, admitted requests including this one are at most burst + rate * length |
| RateLimiting.SweepsAreInvisible | core/pkg/gateway/rate_limiter.go:73-83 | with sweeps anywhere in the run, every client gets the answers of the run without them, if maxAge * rate >= burst |
| RateLimiting.WindowsDecideDespiteSweeps | core/pkg/gateway/rate_limiter.go:46-83 | the window characterisation holds of runs with sweeps |
| RateLimiting.NeverOverTheLimit | core/pkg/gateway/rate_limiter.go:35-70 | over any stretch of time of any run, a client gets at most burst + rate * length requests in |
| RateLimiting.ExactIffBurstPositive | core/pkg/gateway/rate_limiter.go:52-55 | the window characterisation holds of all runs if and only if burst >= 1 |
| RateLimiting.SecondBurst | core/pkg/gateway/rate_limiter.go:77-81 | if maxAge * rate < burst, some run gives a client twice the burst, more than burst + rate * length, because of a sweep |
| RateLimiting.EarlySweepShows | core/pkg/gateway/rate_limiter.go:77-81 | if maxAge * rate < burst, in some run a sweep changes an answer |
| RateLimiting.LimitIsKeptIff | core/pkg/gateway/rate_limiter.go:35-83 | the limit is kept over every stretch of every run with sweeps if and only if burst >= 1 and maxAge * rate >= burst |
| RateLimiting.SweepsAreInvisibleIff | core/pkg/gateway/rate_limiter.go:73-83 | sweeps are invisible in all runs if and only if burst >= 1 and maxAge * rate >= burst |
| RateLimiting.GatewayLimits | core/pkg/gateway/gateway.go:488-489 | the configured limiter (10000 a minute, burst 5000, ten minutes) decides by windows in every run with sweeps |
| CircuitBreaking.CircuitBreaker.constructor | core/pkg/gateway/circuit_breaker.go:34-39 | starts closed without failures |
| CircuitBreaking.CircuitBreaker.Allow | core/pkg/gateway/circuit_breaker.go:43-61 | answer and new state; open turns half open once the wait is over |
| CircuitBreaking.CircuitBreaker.RecordSuccess | core/pkg/gateway/circuit_breaker.go:64-69 | closes the circuit and resets the counter |
| CircuitBreaking.CircuitBreaker.RecordFailure | core/pkg/gateway/circuit_breaker.go:72-80 | counts the failure, stamps its time, opens at the threshold |
| CircuitBreaking.StateIsHistory | core/pkg/gateway/circuit_breaker.go:34-80 | after any calls: the counter is the failures since the last success; closed iff fewer than five; half open iff five or more and some request was let through since the last recorded outcome; the stamp is the latest failure's time |
| CircuitBreaking.AnswerIsHistory | core/pkg/gateway/circuit_breaker.go:43-61 | a request gets through iff the circuit is not tripped, or nothing got through since the last outcome and 30 s have passed since the latest failure |
| CircuitBreaking.OneProbePerRecord | core/pkg/gateway/circuit_breaker.go:56-58 | once tripped, at most one request gets through between recorded outcomes |
| CircuitBreaking.LostProbeRefusesForever | core/pkg/gateway/circuit_breaker.go:56-58 | from half open no number of requests at any times is let through and the state does not change |
| CircuitBreaking.HalfOpenLeavesOnRecord | core/pkg/gateway/circuit_breaker.go:63-80 | a failure recorded in half open restarts the wait, a success lets everyone through |
| CircuitBreaking.OneProbeIff | core/pkg/gateway/circuit_breaker.go:41-80 | for any set of requests that never report: a probe is the only one in flight until it reports, whatever requests and reports follow, if and only if, when it went out, no probe was in flight and every unreported request was in that set |
| CircuitBreaking.MuteRequestKeepsProbeAlone | core/pkg/gateway/middleware.go:1470-1500 | a concrete run: with request 0 a WebSocket connection, probe 6 stays the only one |
| CircuitBreaking.LoneProbeBlocks | core/pkg/gateway/circuit_breaker.go:41-61 | after a probe that goes out while nothing else in flight can report, every continuation without its report leaves the circuit half open and lets nobody through |
| CircuitBreaking.OlderRequestReleasesSecondProbe | core/pkg/gateway/circuit_breaker.go:71-80 | a failure reported by an older request while a probe is out puts a second probe in flight 30 s later |
| CircuitBreaking.TwoProbesInFlight | core/pkg/gateway/circuit_breaker.go:41-80 | a concrete run: requests 1 to 5 fail, 6 probes, 0 fails late, 7 probes while 6 is out |
| Failover.BuildTargets | core/pkg/gateway/middleware.go:1368-1383 | the rows with an address, in order, with port 10004 for a missing one |
| Failover.TargetsFollowRows | core/pkg/gateway/middleware.go:1368-1383 | every row with an address becomes a target in its place, with its own port or 10004; other rows leave no trace |
| Failover.FindLocal | core/pkg/gateway/middleware.go:1411-1420 | the first target with the local address, or -1 |
| Failover.OrderTargets | core/pkg/gateway/middleware.go:1408-1441 | local target, hash-selected target, then the others in order |
| Failover.OrderedPermutes | core/pkg/gateway/middleware.go:1410-1441 | the ordered list is a permutation of the targets |
| Failover.OrderedLeaders | core/pkg/gateway/middleware.go:1408-1436 | a local target comes first; the hash-selected one is first, or second after a local one |
| Failover.OrderIsAffine | core/pkg/gateway/middleware.go:1408-1441 | place by place: the first target with the local address, the hash-selected one unless it is the same, then all others in their order, each once |
| Failover.CanonicalIsAffine | core/pkg/gateway/middleware.go:1400-1441 | the list tried comes in that way from the targets in ascending order of address, then port |
| Failover.KeysTellAddresses | core/pkg/gateway/middleware.go:1448 | two targets share a breaker iff they have the same address |
| Failover.RowOrderIsIrrelevant | core/pkg/gateway/middleware.go:1346-1441 | any two orders of the same rows, queried or cached, give the same ordered list, the same answer and the same circuits afterwards |
| Failover.Registry.Get | core/pkg/gateway/circuit_breaker.go:104-121 | one breaker per target, created closed on first use; no other changes |
| Failover.Registry.Select | core/pkg/gateway/middleware.go:1445-1464 | the first target in order whose circuit admits; only its circuit moves and only it may be created; the empty sentinel iff every circuit refuses |
| Failover.Route | core/pkg/gateway/middleware.go:1333-1464 | 404 iff there are no rows or the query fails, 503 iff no row has an address or every circuit refuses; otherwise the request goes to a target that lets it through while all before it refuse, that circuit alone has answered, and its breaker is the one handed on |
| Failover.VerdictSendsToFirstAdmitting | core/pkg/gateway/middleware.go:1445-1464 | for all circuits and targets, the answer names the first target of the canonical list that lets the request through, or says that all refuse |
| Failover.CircuitsAreIndependent | core/pkg/gateway/middleware.go:1447-1455 | over any interleaving of requests fetching and asking breakers one by one and of recorded outcomes, each target's circuit is what its own calls alone make it |
| Failover.ChosenTargetIsHealthy | core/pkg/gateway/middleware.go:1443-1455 | in any interleaving, a request is sent to the target it asks iff that target is not tripped by its own calls up to then, or its wait is over and no probe is outstanding; else it moves to the next |
| Failover.WalksAskInOrder | core/pkg/gateway/middleware.go:1447-1455 | in any interleaving, a request asks its targets in order and each once: those passed refused it, the one it was sent to did not |
| Failover.UndisturbedWalkSelects | core/pkg/gateway/middleware.go:1447-1455 | a request nobody disturbs ends with the choice and the circuits of the selection loop |
| PortAllocation.FirstFree | core/pkg/deployments/port_allocator.go:96-107 | the least free port, everything below it taken; one past the range if none |
| PortAllocation.FindPort | core/pkg/deployments/port_allocator.go:90-107 | the map fill and search loops find the least port of 10100..19999 not taken, or 20000 |
| PortAllocation.UniqueViolationIsConflict | core/pkg/deployments/port_allocator.go:216-222 | a wrapped uniqueness error is recognised as a conflict |
| PortAllocation.ConflictIsWording | core/pkg/deployments/port_allocator.go:216-222 | an error is a conflict iff UNIQUE, constraint or conflict occurs somewhere in its text |
| PortAllocation.QueryDecides | core/pkg/deployments/port_allocator.go:74-107 | a query leaves the least free port of 10100..19999, or ends the call iff all are taken |
| PortAllocation.InsertDecides | core/pkg/deployments/port_allocator.go:109-120 | an insert of a free port adds its row and ends the call, one of a taken port adds nothing and is retried, up to ten attempts |
| PortAllocation.WordingDecidesRetry | core/pkg/deployments/port_allocator.go:50-70 | a failed query or insert ends the call with the database error iff none of the three words occurs in the wrapped text; otherwise it is retried, up to ten attempts |
| PortAllocation.AllocatePort | core/pkg/deployments/port_allocator.go:30-71 | with anything others may do in between, the retry loop goes through the states its own attempts and their steps lead to, counts its retries, and returns the outcome reached; ten attempts are used before giving up |
| PortAllocation.CallIsRun | core/pkg/deployments/port_allocator.go:30-71 | these states are a run of the step machine made of its own steps and those of the others |
| PortAllocation.UnretriedErrorEndsCall | core/pkg/deployments/port_allocator.go:52-66 | the first attempt in which the database fails with a text that has none of the three words is the last, and its failure is what the caller gets, unless the node was full |
| PortAllocation.TryOnce | core/pkg/deployments/port_allocator.go:74-123 | one attempt is the query, the search and the insert with others' steps in between; which error it ends with and whether it is retried |
| PortAllocation.StepKeeps | core/pkg/deployments/port_allocator.go:74-143 | every step of any caller and every deallocation keeps the invariant |
| PortAllocation.TableAlwaysOk | core/pkg/deployments/port_allocator.go:28-123 | after any interleaving all recorded ports are in 10100..19999 and no (node, port) is recorded twice |
| PortAllocation.ConflictHasCulprit | core/pkg/deployments/port_allocator.go:109-120 | a uniqueness conflict means another call inserted that very port on that node after this attempt's query |
| PortAllocation.GivingUpMeansOthersSucceeded | core/pkg/deployments/port_allocator.go:34-70 | a call that gives up after 10 retries saw at least 10 distinct insertions of others on its node during the call, less the failures worded like conflicts |
| PortRuns.GivingUpIsTight | core/pkg/deployments/port_allocator.go:34-70 | for every k up to 10, some run gives up with k failures worded like conflicts and exactly 10 - k insertions of others |
| PortAllocation.WordingAloneExhausts | core/pkg/deployments/port_allocator.go:50-70 | ten queries or ten inserts failing with a text worded like a conflict exhaust the retries with no insertion at all |
| PortAllocation.ForeignKeyExhausts | core/pkg/gateway/handlers/deployments/service.go:198-213 | with the foreign key enforced, a lone caller on an empty table gives up after ten retries |
| PortAllocation.AvailableIsExact | core/pkg/deployments/port_allocator.go:174-213 | the reported availability is the number of free ports, 9900 less the allocations; the clamp never acts; positive iff the search finds a port |
| PortAllocation.DeallocateUndoesIff | core/pkg/deployments/port_allocator.go:126-143 | releasing a deployment's ports right after an allocation restores the table if and only if the deployment held no other port on any node |
| PortRuns.HeldUntilReleased | core/pkg/deployments/port_allocator.go:109-143 | in any run, a call's port is recorded until its deployment's ports are released |
| PortRuns.PortIsExclusive | core/pkg/deployments/port_allocator.go:109-143 | in any run, two calls that both got a port and were not released have different nodes or ports |
| PortRuns.GivenAgainIff | core/pkg/deployments/port_allocator.go:90-143 | without a release of its deployment, some continuation gives a port out again if and only if its row is not in the table |
| PortRuns.GivenOutTwice | core/pkg/gateway/handlers/deployments/replica_handler.go:102-111 | a run: home and replica get ports, the replica is rolled back, and the next deployment on the home node gets the port the first one still has |
| Placement.Score | core/pkg/deployments/home_node.go:334-377 | the score lies between 0 and 1 |
| Placement.ScoreWeights | core/pkg/deployments/home_node.go:335-362 | using up a resource costs its weight (0.4 for deployments, 0.2 for the others) times what was left of it; an idle node scores 1, a full one 0 |
| Placement.ScoreInNumbers | core/pkg/deployments/home_node.go:335-362 | the score is 1 - 0.4 d/100 - 0.2 p/9900 - 0.2 m/8192 - 0.2 c/400, with use beyond the caps not counted |
| Placement.ScoreFollowsLoad | core/pkg/deployments/home_node.go:340-362 | less load never lowers the score, and raises it iff some resource below its cap is used less |
| Placement.SelectBestNode | core/pkg/deployments/home_node.go:380-400 | the first of the highest-scoring entries, none iff the list is empty |
| Placement.CalculateNodeCapacities | core/pkg/deployments/home_node.go:221-238 | the readable nodes in order with their scores |
| Placement.CapacitiesFollowNodes | core/pkg/deployments/home_node.go:221-238 | of two readable nodes, the earlier one has the earlier entry |
| Placement.CapacitiesListNodes | core/pkg/deployments/home_node.go:221-238 | an entry is listed iff its node is asked for, readable, and scored by its load |
| Placement.BestIsUndominated | core/pkg/deployments/home_node.go:333-400 | a best entry is not dominated by another one |
| Placement.HomeNodes.AssignHomeNode | core/pkg/deployments/home_node.go:31-93 | an existing home is returned if its lookup is answered; otherwise the first of the highest-scoring readable nodes is returned and recorded; none iff there is no such node |
| Placement.NewHomeIsFirstBest | core/pkg/deployments/home_node.go:44-93 | a newly chosen home is an active readable node such that no other scores higher and every earlier one scores less |
| Placement.NewHomeIsUndominated | core/pkg/deployments/home_node.go:44-93 | a newly chosen home is active, readable and undominated; none iff no active node is readable |
| Placement.HomeIsKeptIff | core/pkg/deployments/home_node.go:35-42 | an existing home is returned if and only if its lookup is answered or it is the first of the highest-scoring nodes |
| Placement.FailedLookupMovesHome | core/pkg/deployments/home_node.go:35-73 | a failed lookup moves a namespace from its half-full home to an idle node |
| Placement.BestComesFirst | core/pkg/deployments/replica_manager.go:62-74 | picking the best and dropping it is the first step of the stable ranking |
| Placement.RankedIsStableSort | core/pkg/deployments/replica_manager.go:59-75 | the ranking is the stable descending permutation by score |
| Placement.SelectReplicaNodes | core/pkg/deployments/replica_manager.go:41-84 | the first min(count, half of the candidates rounded up) nodes of the ranking |
| Placement.ReplicasAreDistinct | core/pkg/deployments/replica_manager.go:41-75 | replicas are distinct active nodes and never the primary |
| Placement.ReplicasAreFirstBest | core/pkg/deployments/replica_manager.go:59-75 | each replica has a higher score than every eligible node left, or the same and comes first among the active nodes |
| Placement.FullCountIff | core/pkg/deployments/replica_manager.go:31-32 | min(count, candidates) nodes are returned iff count is at most half of the candidates rounded up, or there is at most one |
| KeyCaching.MiddlewareCache.GetAPIKeyEntry | core/pkg/gateway/middleware_cache.go:78-87 | the entry unless missing or expired |
| KeyCaching.MiddlewareCache.SetAPIKeyEntry | core/pkg/gateway/middleware_cache.go:91-100 | stores the entry until now + ttl and changes nothing else |
| KeyCaching.MiddlewareCache.Cleanup | core/pkg/gateway/middleware_cache.go:135-141 | an entry is left iff it has not expired |
| KeyCaching.MissAsksDatabase | core/pkg/gateway/middleware.go:270-318 | on a miss an undisturbed lookup is answered from the database its client asks: by the row under the hashed key if it is live, else by the one under the given key if that is another; a failed query finds nothing; a found entry is cached for the ttl, nothing for an invalid key |
| KeyCaching.StepKeeps | core/pkg/gateway/middleware.go:270-318 | every step of a lookup, every change of the table and every sweep keeps the freshness invariant |
| KeyCaching.AnswersAreFresh | core/pkg/gateway/middleware.go:270-318 | in any interleaving, an entry answered at t was resolved by a live row of one of the two databases at some time in [t - ttl - delay, t] |
| KeyCaching.RevocationTakesEffect | core/pkg/gateway/middleware_cache.go:89-100 | a key without a live row since some time is refused once ttl + delay have passed |
| KeyCaching.BoundIsReached | core/pkg/gateway/middleware.go:284-298 | a row revoked at 0 can still be answered at ttl + delay |
| KeyCaching.BoundsStalenessIff | core/pkg/gateway/middleware.go:270-318 | an age bounds staleness in every run if and only if it is at least ttl + delay |
| KeyCaching.LifetimeBoundsIff | core/pkg/gateway/middleware_cache.go:89-100 | the ttl alone bounds staleness in every run if and only if delay is 0 |
| KeyCaching.CleanupIsInvisible | core/pkg/gateway/middleware_cache.go:126-141 | removing all sweeps from a run changes no lookup |
| LogBatching.Flush | core/pkg/gateway/request_log_batcher.go:97-179 | key collection, id resolution, rows and stamps of one flush |
| LogBatching.RowsAreAboutRequests | core/pkg/gateway/request_log_batcher.go:141-163 | either writer keeps the earlier rows and adds, in order, one row per request with its method, path, status, bytes, duration and address |
| LogBatching.RowsCarryIds | core/pkg/gateway/request_log_batcher.go:97-163 | the row has the id on record for the request's key, in a batch if it is positive, and none without a key |
| LogBatching.StampsAreIds | core/pkg/gateway/request_log_batcher.go:165-179 | exactly the ids of the keys used are stamped in addition, in a batch the positive ones |
| LogBatching.FlushRefinesPersist | core/pkg/gateway/request_log_batcher.go:97-179 | with unique keys, a flush leaves the tables as writing the entries one by one does, iff every known key of the batch has a positive id |
| LogBatching.PersistAllWrites | core/pkg/gateway/middleware.go:1039-1091 | the per-request writer adds one row per entry in order and stamps exactly the keys found |
| LogBatching.RequestLogBatcher.Add | core/pkg/gateway/request_log_batcher.go:50-59 | appends, and asks for a flush iff the buffer has reached its size |
| LogBatching.RequestLogBatcher.Swap | core/pkg/gateway/request_log_batcher.go:78-86 | takes everything and leaves an empty buffer |
| LogBatching.NothingLostInMemory | core/pkg/gateway/request_log_batcher.go:50-86 | after any steps, the batches in swap order followed by the buffer are the entries added |
| LogBatching.WriteIsFaithfulIff | core/pkg/gateway/request_log_batcher.go:97-179 | a batch leaves the rows and stamps of the per-request writer if and only if every key in it has the id it had when the request was served |
| LogBatching.BatchingIsTransparent | core/pkg/gateway/request_log_batcher.go:50-179 | once all batches are written, in any order, and if each write was faithful, the tables hold what the per-request writer has left, up to the order of log rows, with the key table changing meanwhile |
| LogBatching.HarmlessChangesSettle | core/pkg/gateway/request_log_batcher.go:78-179 | every write is faithful if each change of the key table leaves the ids of the entries in memory alone |
| LogBatching.DeletedKeyShows | core/pkg/gateway/handlers/namespace/delete_handler.go:107 | a key deleted between request and write: the batch row has no id, the per-request row has one |
| Hops.HomeProxyHopsOnce | core/pkg/gateway/routes.go:291-322 | in any cluster a wrapped request crosses at most one node boundary, always to the home node, a stamped one none |
| Hops.HomeProxyReachesHomeIff | core/pkg/gateway/routes.go:291-322 | the route to the home node exists iff the request is unstamped, its deployment known, and the node has an id and is not the home |
| Hops.ReplicaServesOwnPort | core/pkg/gateway/middleware.go:1742-1757 | a replica serves an unstamped request from its own port and sends it out iff nothing answers there; another deployment on that port, and no other, misserves it |
| Hops.StrangerSendsOut | core/pkg/gateway/middleware.go:1738-1769 | a node that is neither home nor replica sends an unstamped request out whatever listens locally |
| Hops.OthersServeHomePort | core/pkg/gateway/middleware.go:1771-1857 | the home node, a node without an id and any node with a stamped request serve from the home node's port, and send out iff nothing answers there and replicas are managed |
| Hops.TargetsAreKnownNodes | core/pkg/gateway/middleware.go:1976-2013 | the nodes tried are the other replicas with a port on record, or the home node if there are none or replicas are not managed |
| Hops.NoPortNoHop | core/pkg/gateway/middleware.go:1733-1736 | a deployment without a port is neither served nor forwarded |
| Hops.HopsOnceIff | core/pkg/gateway/middleware.go:1732-1857 | a request, stamped or not, crosses at most one boundary iff no node it can be forwarded to passes it on: does not answer on the home node's port, manages replicas and has a node to try; from a node without an id, iff none of them sends an unstamped request out |
| Hops.SharedPortHopsOnce | core/pkg/gateway/middleware.go:1771-1857 | it does when on every node something answers on the home node's port |
| Hops.HealthyClusterHopsTwice | core/pkg/gateway/middleware.go:1742-1775 | home on 10100, replica on 10105, both answering: from a third node there is a route over the replica to the home node |
| Hops.EndlessIffComesBack | core/pkg/gateway/middleware.go:1732-1857 | in any cluster there are routes of every length iff some route returns to a node it visited, stamped or not as before |
| Hops.EndlessIffLoops | core/pkg/gateway/middleware.go:1732-1857 | with ids set, there are routes of every length iff the request can be forwarded to a node that passes it on and either no replica is on record or two replicas do not answer on the home node's port and pass on |
| Hops.SilentReplicasLoop | core/pkg/gateway/middleware.go:1833-1838 | two replicas that do not answer on the home node's port have routes of every length between them, whatever their own ports do |
| Hops.LiveReplicaLoops | core/pkg/gateway/middleware.go:1742-1775 | with the home process down, the replica answering on 10105 and the home node pass a request on without end |
| Hops.DeadHomeLoops | core/pkg/gateway/middleware.go:1982-1987 | a home node with a dead process and no recorded replica forwards to itself without end |
| Hops.ReachesOnlyOwnIff | core/pkg/gateway/middleware.go:1732-1857 | with ids set, only its own deployment can answer a request if and only if no other one answers where it is, on the home node's port of a node it can be forwarded to, or of a node one of those passes it on to |
| Hops.OtherDeploymentAnswers | core/pkg/gateway/middleware.go:1771-1775 | home and replica of d answering on their own ports, and e on the home node's port of the replica: a request for d can be answered by e |
| IdentityHop.CopyHeaders | core/pkg/gateway/middleware.go:1520-1524 | the copy loop reproduces every header that has values |
| IdentityHop.StampHeaders | core/pkg/gateway/middleware.go:1535-1549 | inbound identity headers are dropped, then validated values are set |
| IdentityHop.Outbound | core/pkg/gateway/middleware.go:1519-1549 | the proxied headers, name by name: validated identity or nothing under the five identity names, one value under each of the four forwarding names, all inbound values under every other; a receiver reads from them what was validated |
| IdentityHop.IdentityRoundTrip | core/pkg/gateway/middleware.go:100-188 | whatever came in, the receiver gets the validated namespace, trimmed subject, custom claims and scopes; no claims without a subject; nothing for a blank namespace; a peer outside the mesh is believed nothing |
| IdentityHop.AcceptedIff | core/pkg/gateway/middleware.go:487-515 | an identity is taken iff the peer is inside the mesh, the mark says true and the namespace is not blank |
| IdentityHop.UndecodableClaimsAreDropped | core/pkg/gateway/middleware.go:176-186 | custom claims that cannot be decoded are dropped and the rest is accepted |
| IdentityHop.TrimKeepsMiddle | core/pkg/gateway/middleware.go:104-106 | trimming leaves the stretch between the outermost characters that are not space |
| IdentityHop.AsciiSpaces | core/pkg/gateway/middleware.go:104 | of the ASCII characters, exactly the blank and tab to carriage return are space |
| IdentityHop.OtherHeadersSurvive | core/pkg/gateway/middleware.go:130-136 | headers outside the identity set keep all their values |
| ClaimsProviding.Enumerate | core/pkg/gateway/claims_provider.go:137-140 | the object's keys once each, in any order |
| ClaimsProviding.TakeWithinCaps | core/pkg/gateway/claims_provider.go:143-161 | keeps the longest prefix of the eligible keys within 16 entries and 4096 bytes |
| ClaimsProviding.Sanitize | core/pkg/gateway/claims_provider.go:126-166 | at most 16 claims, each with the text it came with and none of the nine reserved names; every kept key precedes every eligible one that is not kept; none at all for empty, oversized or unparsable input |
| ClaimsProviding.SizeIsLength | core/pkg/gateway/claims_provider.go:143-161 | a prefix fits iff it has at most 16 keys and keys and texts together at most 4096 bytes |
| ClaimsProviding.EligibleIff | core/pkg/gateway/claims_provider.go:143-155 | a key is eligible iff its value is a string and it is not one of the nine reserved names |
| ClaimsProviding.PickedEntries | core/pkg/gateway/claims_provider.go:156-160 | the result maps exactly the kept keys to their texts |
| ClaimsProviding.TruncationIsCanonical | core/pkg/gateway/claims_provider.go:134-161 | eligible list and kept prefix do not depend on the enumeration; exactly the prefixes up to the kept one fit |
| Sequences.SortedIsUnique | core/pkg/gateway/middleware.go:1400-1406 | under a total order there is one sorted arrangement, whatever the algorithm |
| Sequences.LexIsFirstDifference | core/pkg/gateway/middleware.go:1400-1406 | strings are ordered by their first difference |

## Left out

- `NamespaceRateLimiter` and the rate-limit manager: the same bucket behind a map from namespaces.
- HTTP, WebSocket and TLS transport, libp2p, RQLite, process spawning, log calls and sleeps: forwarding and database outcomes are parameters or steps.
- WebSocket forwarding in Hops.dfy: it takes the same branches as plain HTTP. Circuit breakers and timeouts, which end a forwarding loop in practice, and failed replica queries are not part of the routes.
- Failover.Registry.Select: reads the clock once; in the interleaved runs every question reads its own.
- Placement.HomeNodes.AssignHomeNode: one caller at a time; a failure of the node query or of the insert is an error return that changes nothing.
- Response handling after proxying (`IsResponseFailure`): which statuses count as failures; outcomes enter runs as recorded successes and failures.
- JWT verification, key hashing, scope parsing, path classification: fixed lists or foreign code.
- Ids stored as text or floating-point numbers in the log writers: ids are integers here.
- Failed or timed-out writes of a log batch: the code drops the batch.
- Update of assignments by migration, heartbeats and resource usage: single-row updates.
- The cache of namespace targets has the same form as the key cache; its contents enter `Failover.Route` as a parameter.
- The namespace port-block allocator and its node selector: a separate scheduler with the same score.
