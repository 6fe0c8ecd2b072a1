# Multi-tenant messaging: a verified model

The system gives every tenant a RabbitMQ queue, a consumer goroutine and a pool of worker
goroutines, keeps message rows in PostgreSQL, and lists them in pages. This project models
the parts of it where interleavings, retries and page boundaries decide the outcome, and
proves what those parts guarantee and, where a natural guarantee fails, exactly when it holds.

Check it with `dafny verify dfyconfig.toml` (Dafny 4.11).

| files | what they model |
|---|---|
| `Wrappers.dfy`, `WorkItems.dfy`, `PoolMachine.dfy`, `PoolRuns.dfy`, `WorkerPool.dfy` | the worker pool: a machine of atomic steps, what holds over all its runs, and the pool as an object whose methods are runs of the machine |
| `Backoff.dfy`, `Retry.dfy`, `RowRuns.dfy` | the retry loop, its int64 pauses, the row versions it writes, dead-lettering; the rows while many workers' statements interleave |
| `Listing.dfy`, `CursorPaging.dfy`, `KeysetPaging.dfy` | the listing queries, following `next_cursor`, and the composite cursor against OFFSET |
| `ManagerMachine.dfy`, `Manager.dfy`, `Registry.dfy`, `RegistryRuns.dfy` | spawning, stopping and shutting down consumers; the tenant routes over two stores, served whole and interleaved |
| `Consumer.dfy`, `Isolation.dfy`, `Publisher.dfy`, `Connection.dfy` | settling deliveries, tenant isolation end to end, batch publishing, the reconnecting connection |

How the model reads the source:

- A Go `select` is a free choice among its ready cases. A goroutine's step between two
  synchronisation points is one event; a *run* is any sequence of enabled events, so a
  statement about all runs is a statement about all interleavings.
- Database results, broker results, dial results, the clock, fresh UUIDs and the simulated
  processing failure are parameters or events, so every statement holds for all of them.
- A timestamp is a number of microseconds; a cursor is a timestamp floored to the second,
  which is what formatting it without fractional seconds and parsing it back gives. Rows of
  different tenants may tie in `(created_at, id)`; their order within a query is then free.
- Closing a channel twice panics. In the manager machine closes are counted, and the proof
  that no count exceeds one is the proof that no such panic happens.

Main results:

- **Pool.** Accepted items leave in order and every dequeued item is held by exactly one
  worker or has exactly one final outcome, in every interleaving. The WaitGroup counts live
  goroutines; the advertised count is exact if and only if no scale-down ever happened. A
  stopped pool runs out of steps within a computed bound and then only the channel's items
  are unfinished. Those stay unfinished although the broker was told they were accepted. As
  long as no Submit puts an item into the channel after doneChan is closed, a stop is sure
  to leave none if and only if the channel is empty when it begins. The consumer loop is
  not waited for and may still submit: then no stop of a buffered pool is safe, and any list
  that fits into the channel can be left.
- **Retry.** An item is dead-lettered if and only if all allowed attempts fail *and* the count
  it was dequeued with has already reached the limit. Line 275 of the repository's README and the comment at
  internal/tenant/worker_pool.go:141 promise the former alone; the code tests the caller's
  copy of the item. Items built by the consumer loop carry count 0, so for a limit of at
  least 1 none of them is ever dead-lettered.
- **Paging.** Following `next_cursor` is complete if and only if every limit-th row of the
  full listing is followed by a row of a strictly older second; otherwise the omitted rows are
  exactly those of the seconds the cursors cut. The composite cursor of the SQL file pages
  like OFFSET and is immune to newer inserts.
- **Manager.** In every interleaving each consumer is in the map or belongs to exactly one
  stopper, so nothing is closed twice; ShutdownAll leaves nothing of its snapshot open.
- **Two stores.** The tenants table and the running consumers agree after every interleaving of
  requests with canonical ids in which no request overtakes an earlier one for the same tenant
  on its way to the manager, in particular if no two for the same tenant overlap. For every
  pair in which one does overtake, and for every run without any of these hypotheses, it is
  shown exactly when the stores agree at the end. A canonical id is one spelled the way the
  database prints it; the routes accept others.
- **Isolation.** What a tenant sees of queues, work, rows and dead letters after any run is
  what it would see had no other tenant acted.
- **Connection.** Channel can wait for ever for a lock its own caller holds. It can do so if and
  only if there is no channel yet or somebody who saw none has not returned, which a
  successful Connect does not change. A lost connection comes back by itself if and only
  if it is not closed, nobody holds the lock and some watcher is still on its way; each
  watcher dials once.

Some lemmas only tie a definition to the source, with names, fields and numbers written out, so
that the results above cannot rest on a wrong definition: `PoolRuns.ReadyInWords`,
`Connection.CallsInWords`, `Connection.LockInWords`, `Connection.ClosedWatcherLeaves`,
`ManagerMachine.SpawnRegisters`, `Registry.AgreeInWords`, `Registry.ShutdownInWords`,
`Isolation.SpawnInWords`, `Isolation.DeliverInWords`, `Isolation.ExecuteInWords`,
`Isolation.ViewInWords`, `KeysetPaging.KeysInWords` and
`Backoff.JitterIsAFifthOfTheReading`.

## Model

| member | source | states |
|---|---|---|
| PoolMachine.StepInv | internal/tenant/worker_pool.go:52-146 | every atomic step of submitter, worker, Resize or Stop keeps the pool invariant: conservation, one holder or one outcome per item, verdicts matching the attempts, goroutine accounts |
| PoolMachine.StepPartitioned | internal/tenant/worker_pool.go:120-146 | every step keeps each dequeued item with exactly one worker or exactly one outcome |
| PoolMachine.StepJudged | internal/tenant/worker_pool.go:134-178 | every step keeps the verdicts in line with the attempts made: failures then one success, or every allowed attempt failed |
| PoolMachine.StepAccounted | internal/tenant/worker_pool.go:52-131 | every step keeps the WaitGroup equal to the number of live goroutines and that number equal to what the counters promise |
| PoolRuns.ConservationAndFifo | internal/tenant/worker_pool.go:38-146 | over every run: the items Submit accepted are those dequeued, in order, followed by the channel's; the channel holds at most ten times the initial count; a dequeued item is held or has an outcome, never both, and has at most one holder |
| PoolRuns.BufferIsTenPerWorker | internal/tenant/worker_pool.go:38-105 | in every run Submit can refuse an open pool's item as full exactly when ten items per initial worker wait, and can put it into the channel exactly when fewer do; a hand-over needs an empty channel and a waiting worker |
| PoolRuns.ZeroMeansOnlyQueueIsLeft | internal/tenant/worker_pool.go:108-131 | with the WaitGroup at zero the accepted items without outcome are exactly the channel's contents |
| PoolRuns.OutcomeMatchesResults | internal/tenant/worker_pool.go:134-178 | in every interleaving an item's outcome is the one its attempts' results and its original count determine, after at most maxRetry+1 attempts, all but the last failed |
| PoolRuns.FreshItemsAreNeverDeadLettered | internal/tenant/manager.go:329-334 | over every run, items accepted with a count below the limit are never dead-lettered |
| Consumers.ServeTenant | internal/tenant/manager.go:280-348 | a pool fed by the consumer loop alone, from creation to the end of its stop: every item it accepted has count 0 and its tenant, and with a limit of at least 1 none is dead-lettered, whatever fails |
| PoolRuns.RunExtends | internal/tenant/worker_pool.go:96-146 | along a run accepted and dequeued items only grow and an outcome is never changed |
| PoolRuns.WorkerAccounts | internal/tenant/worker_pool.go:52-131 | over every run the WaitGroup equals the live goroutines; before Stop, with mu free, they are the advertised count plus the sum of its drops, so the count is exact if and only if it never dropped |
| PoolRuns.ScaleDownStopsNobody | internal/tenant/worker_pool.go:88-92 | from n workers to m advertised, n stay alive |
| PoolRuns.StepSpendsPotential | internal/tenant/worker_pool.go:120-178 | every step possible without Submit, Resize or Stop lowers a measure of queue, remaining attempts, workers and unfinished spawning |
| PoolRuns.StopTerminates | internal/tenant/worker_pool.go:108-178 | after doneChan is closed every run of such steps is at most as long as the measure, even if select always prefers workChan; when no step is left the WaitGroup is zero and only the channel's items are unfinished |
| PoolRuns.RacingStopIsSafeIff | internal/tenant/worker_pool.go:96-131 | over all runs, Submit and Resize called at any time during the stop: every accepted item is sure to get an outcome if and only if the channel has no buffer at all |
| PoolRuns.StopLeavesAnyList | internal/tenant/worker_pool.go:96-131 | over all runs, with a worker alive when doneChan is closed: what can be left in the channel is any list of items that fits into it |
| PoolRuns.RacingSubmitStrandsWork | internal/tenant/worker_pool.go:97-104 | a failing run for every pool stopped with an empty channel: Submit puts an item into the channel after doneChan is closed, and it stays there without an outcome |
| PoolRuns.StopLeavesNothingIff | internal/tenant/worker_pool.go:108-131 | if no Submit puts an item into the channel after doneChan is closed: the pool is sure to end without leaving an accepted item in the channel if and only if the channel is empty already |
| PoolRuns.StopIsSafeIff | internal/tenant/worker_pool.go:108-131 | the same said before the call: if no Submit puts an item into the channel after doneChan is closed, every accepted item is sure to get an outcome if and only if the channel is empty when Stop is called |
| PoolRuns.StopLeavesAnySuffix | internal/tenant/worker_pool.go:108-131 | if no Submit puts an item into the channel after doneChan is closed, and a worker is alive then: what can be left is any suffix of the channel's contents and nothing else |
| PoolRuns.StopCanStrandWork | internal/tenant/worker_pool.go:108-131 | the smallest instance: one worker, one item, a run that ends stopped for good with the item in the channel and no outcome |
| PoolRuns.LateResizeRevives | internal/tenant/worker_pool.go:69-93 | a Resize that still holds a stopped pool starts workers in it again if and only if it asks for more than the pool advertises |
| WorkerPools.WorkerPool.constructor | internal/tenant/worker_pool.go:38-66 | the started pool, as a run of the machine: a channel for ten items per worker asked for, at least one worker, all waiting, nothing accepted |
| WorkerPools.WorkerPool.Resize | internal/tenant/worker_pool.go:69-93 | only a larger count starts goroutines, the advertised count follows both ways; a run of the machine |
| WorkerPools.WorkerPool.Submit | internal/tenant/worker_pool.go:96-105 | accepted: the item is appended, in one enabled step; refused: nothing changes and the refusal was an enabled choice |
| WorkerPools.WorkerPool.Select | internal/tenant/worker_pool.go:123-130 | an idle worker exits or receives, whichever ready case select picks |
| WorkerPools.WorkerPool.Process | internal/tenant/worker_pool.go:134-146 | one attempt or the error branch, as a step of the machine |
| WorkerPools.WorkerPool.Wait | internal/tenant/worker_pool.go:108-112 | whatever order workers, a Resize in progress and any finite number of further Submit and Resize calls run in, the wait on a closed pool ends with the WaitGroup at zero, as a run of the machine |
| WorkerPools.WorkerPool.Stop | internal/tenant/worker_pool.go:108-112 | Stop, called at any time, returns with the WaitGroup at zero; of all items accepted by then exactly the dequeued ones have an outcome |
| Retry.Store.HandleMessage | internal/tenant/worker_pool.go:181-224 | succeeds if and only if payload, upsert, work and final update do; the row of this message id and tenant then exists with the item's count, completed or still processing; every row of another id or tenant is unchanged |
| Retry.Store.ProcessWithRetry | internal/tenant/worker_pool.go:149-178 | succeeds if and only if one of attempts 0..maxRetry would; stops at the first success; pauses 2^i seconds and a jitter after every failed attempt i but the last; advances the count only in its own copy; writes the versions of its attempts |
| Retry.Store.ProcessWork | internal/tenant/worker_pool.go:134-249 | completed if and only if one of attempts 0..maxRetry goes through, else dead-lettered if and only if the original count has reached the limit; the dead letter field by field; the row of this id and tenant completed or failed accordingly; every other row unchanged |
| Retry.Store.MoveToDeadLetter | internal/tenant/worker_pool.go:226-249 | adds the letter of the item it is given if the insert succeeds; marks an existing row failed and keeps its count |
| Retry.Store.ProcessWorkAsIntended | internal/tenant/worker_pool.go:134-146 | testing the advanced count dead-letters every exhausted item, with that count in the letter; differs from the code exactly on exhausted items whose original count is below the limit; letters and row versions as for processWork |
| Retry.WritersExact | internal/tenant/worker_pool.go:191-203 | the attempts that write a processing row are exactly those whose upsert goes through |
| Retry.TrajectoryShape | internal/tenant/worker_pool.go:191-249 | a row moves along processing versions and then at most one completed or failed version: completed if and only if processing succeeded, failed only if dead-lettered; no other key is written |
| Retry.CompletedIffProcessed | internal/tenant/worker_pool.go:214-249 | a row not completed before is completed afterwards if and only if processing succeeded; other rows are unchanged |
| Retry.FreshItemCounts | internal/tenant/worker_pool.go:150-203 | from count 0 the persisted count never decreases, equals the index of the last attempt whose upsert went through, and stays within the limit |
| Retry.AlwaysFailing | internal/tenant/worker_pool.go:149-178 | an item that always fails is tried maxRetry+1 times with maxRetry pauses, together between 2^maxRetry - 1 seconds and 1.2 times that |
| RowRuns.CallsInEveryRun | internal/tenant/worker_pool.go:134-249 | with the statements of any number of workers interleaved, on the same message too: each call has the outcome its own attempts determine and has logged, in order, the processing versions of its attempts and the final version of that outcome; only the count of the final one may be another worker's |
| RowRuns.RowsAsIfAlone | internal/tenant/worker_pool.go:134-249 | in every run in which no two workers are at work on a message at once, the versions that reach its row while a worker is at work on it are those of one uninterrupted call, with the same outcome |
| RowRuns.RowHistory | internal/tenant/worker_pool.go:149-249 | in every such run the row of a fresh item moves along processing versions with counts that never decrease, and ends completed if and only if some allowed attempt succeeds |
| RowRuns.LogTellsTable | internal/tenant/worker_pool.go:191-249 | in every run at all a row shows the last version written for its key, and is as at the start if none was |
| RowRuns.OtherRowsStay | internal/tenant/worker_pool.go:192-246 | in every run a row whose id and tenant no item of the run has is left alone, so items that differ in either never touch each other's row |
| RowRuns.CanFinish | internal/tenant/worker_pool.go:149-178 | from every state a worker left to run comes to an end within a computed number of steps |
| Retry.CountsOrderedIff | internal/tenant/worker_pool.go:150-203 | for any original count, exactly when the persisted processing counts never decrease |
| Backoff.NeverOverflowsIff | internal/tenant/worker_pool.go:150-175 | no pause can overflow int64, whatever the clock reads, if and only if maxRetry is at most 33 |
| Backoff.PauseOverflows | internal/tenant/worker_pool.go:164-169 | at attempt index 33 the jitter of the clock's last reading overflows, however it is rounded |
| Backoff.PauseFits | internal/tenant/worker_pool.go:164-169 | up to attempt index 32 the computed pause is the exact sum, for every reading of the clock and every rounding of the jitter |
| Backoff.PausesAre | internal/tenant/worker_pool.go:164-169 | pause number i is 2^i seconds and its own jitter |
| Backoff.TotalPause | internal/tenant/worker_pool.go:164-174 | n pauses, and they add up to between 2^n - 1 seconds and 1.2 times that |
| Listing.Query | internal/service/tenant_service.go:283-319 | returns the first n rows in order of created_at and id, descending, with both orders written out |
| CursorPaging.ListMessages | internal/service/tenant_service.go:257-362 | a correct page: only rows of the table that belong to the tenant asked for and are older than the cursor, in order, none skipped; 20, limit or 100 of them; has_more exactly if such a row is not shown; next cursor the last row's whole second; an error if and only if the query or a scan fails |
| CursorPaging.OtherTenantsDoNotMatter | internal/service/tenant_service.go:281-300 | rows of other tenants never affect a tenant's page |
| CursorPaging.FollowFrom | internal/service/tenant_service.go:349-361 | following next_cursor with any limit ends, yields a walk of full pages, and shows only rows of the tenant asked for |
| CursorPaging.NextFilter | internal/service/tenant_service.go:265-290 | the next page's candidates are the current ones older than the cut second, strictly fewer, and none already returned |
| CursorPaging.WalkSafety | internal/service/tenant_service.go:277-361 | the concatenated pages are in listing order, duplicate-free and all matching; at most one page more than matching rows |
| CursorPaging.WalkIsSubsequence | internal/service/tenant_service.go:277-361 | where ids are unique the pages are strictly descending and a subsequence of the full listing |
| CursorPaging.TenantWalkIsSubsequence | db/migrations/002_create_messages_partitioned.sql:3-12 | within one tenant the primary key is enough for that, and the full listing is exactly that tenant's rows |
| CursorPaging.OmittedExactly | internal/service/tenant_service.go:265-362 | a matching row is returned by no page if and only if some page's cursor cut it off |
| CursorPaging.OmittedShareASecond | internal/service/tenant_service.go:349-355 | every omitted row lies in the second of the last row of some page that has more, and is no newer than it |
| CursorPaging.CompleteIff | internal/service/tenant_service.go:265-362 | the walk returns every matching row if and only if at every multiple of the limit the full listing passes into a strictly older second |
| CursorPaging.SameSecondLosesARow | internal/service/tenant_service.go:349-355 | two rows of one second at one row per page: the walk is incomplete |
| KeysetPaging.KeysetRefinesOffset | internal/database/queries/messages.sql:11-24 | for every table and limit the composite cursor's pages are OFFSET's pages and together the whole listing |
| KeysetPaging.QueriesAnswer | internal/database/queries/messages.sql:11-24 | the composite cursor selects the newest rows whose created_at and id are below the cursor's, OFFSET the rows from the offset on; neither more than the limit |
| KeysetPaging.InsertsDoNotShow | internal/database/queries/messages.sql:18-24 | rows inserted above the cursor between pages do not change the walk |
| KeysetPaging.WalkUnderInsertsIsOriginalListing | internal/database/queries/messages.sql:18-24 | under such inserts the walk returns exactly the rows present at its start, in order |
| KeysetPaging.OffsetRepeatsUnderInsert | internal/database/queries/messages.sql:11-16 | after one insert the page at an offset begins with the last row before that offset if and only if the new row lists before it |
| ManagerMachine.StepInv | internal/tenant/manager.go:58-210 | every step of Spawn, Stop, ShutdownAll, their teardowns and the pools keeps: in the map and untouched, or with exactly one stopper at its stage |
| ManagerMachine.SingleClose | internal/tenant/manager.go:113-140 | over every run: each channel of a consumer is closed at most once, none while it is in the map, and a consumer is either in the map or owned by exactly one stopper |
| ManagerMachine.ShutdownIsComplete | internal/tenant/manager.go:178-210 | when ShutdownAll returns every consumer of its snapshot is fully torn down, each close done once, its closed pool has since been at WaitGroup zero, and the map holds only later consumers |
| ManagerMachine.StopIsComplete | internal/tenant/manager.go:114-140 | in every interleaving StopConsumer takes its tenant, and no other, out of the map, the consumer never comes back, and when the call returns each close was done once and its closed pool has since been at WaitGroup zero |
| ManagerMachine.CallCanReturn | internal/tenant/manager.go:114-210 | from every reachable state every call of StopConsumer or ShutdownAll can still return: no interleaving leaves one stuck |
| ManagerMachine.DrainedReachedZero | internal/tenant/worker_pool.go:108-112 | a consumer whose wait returned has passed a state with its pool closed and its WaitGroup at zero |
| ManagerMachine.WaitEnds | internal/tenant/manager.go:125-136 | the wait inside a teardown is enabled once the pool's boundedly many own steps have run out |
| Managers.Manager.SpawnConsumer | internal/tenant/manager.go:58-111 | registers a started pool of the clamped size if and only if the tenant is not registered and the broker cooperates |
| Managers.Manager.StopConsumer | internal/tenant/manager.go:114-140 | unregisters the consumer and stops its pool, while further Submit and Resize calls may reach it: nothing accepted is forgotten, exactly the dequeued items have an outcome, and no other pool is touched |
| Managers.Manager.UpdateConcurrency | internal/tenant/manager.go:143-167 | sets the advertised size of a registered pool to the clamped count, and changes no other size |
| Managers.Manager.ShutdownAll | internal/tenant/manager.go:178-210 | empties the map; with the teardowns of all pools, their workers and further Submit calls in any order, every pool that was in it ends up closed with its WaitGroup at zero |
| Managers.TenantRoutes.CreateTenant | internal/routes/tenant.go:41-63 | the two stores afterwards: the row with a count in 1..50, else 3, the consumer with that size capped by the limit; 201 exactly if both halves succeeded, else 500 |
| Managers.TenantRoutes.DeleteTenant | internal/routes/tenant.go:65-82 | the two stores afterwards; 404, 204 or 500 according to row and consumer |
| Managers.TenantRoutes.UpdateConcurrency | internal/routes/tenant.go:84-108 | the two stores afterwards; 404, 200 or 500 according to count, row and consumer |
| Registry.ServeAgreesIff | internal/routes/tenant.go:41-108 | stores in agreement stay so under a request if and only if it is safe: a delete or update that reaches a row also names the row's consumer, or there is none, or sizes coincide |
| Registry.SerialRequestsAgree | internal/routes/tenant.go:41-108 | over any serial sequence of requests with canonical ids every consumer has a row, its pool the row's size capped by the limit, and every row a count in 1..50 |
| RegistryRuns.RunAgreesIff | internal/routes/tenant.go:41-108 | over every run of halves, whatever overlaps or overtakes and however ids are spelled: the stores agree at its end if and only if for each tenant the manager halves left no consumer, or one of the size of the row that the database halves left |
| RegistryRuns.SerialIsARun | internal/routes/tenant.go:41-108 | every serial sequence of requests is such a run and leaves the same stores |
| RegistryRuns.OrderedRequestsAgree | internal/routes/tenant.go:41-108 | with canonical ids, the halves of all requests interleaved, ShutdownAll included, as long as one tenant's manager halves come in the order of their database halves: at every moment each consumer whose tenant has nothing in flight agrees with its row, and the stores agree whenever nothing is in flight |
| RegistryRuns.ApartRequestsAgree | internal/routes/tenant.go:41-108 | in particular, with canonical ids, the stores agree again after every run in which no two requests for one tenant overlap, whatever other tenants and ShutdownAll do |
| RegistryRuns.OvertakingAgreesIff | internal/routes/tenant.go:41-108 | when of two overlapping requests for one tenant, with canonical ids, the later reaches the manager first, the stores agree afterwards if and only if a condition on the two requests and the stores before them holds |
| Registry.InterleavedCreateDelete | internal/routes/tenant.go:49-79 | after a delete between the halves of a create the stores agree if and only if the consumer could not be started |
| Registry.InterleavedCreateUpdate | internal/routes/tenant.go:49-105 | after an update between the halves of a create the stores agree if and only if the consumer could not be started or both counts give the same size |
| Registry.InterleavedUpdates | internal/routes/tenant.go:94-105 | after two crossing updates the stores agree if and only if there is no consumer or both counts give the same size |
| Consumers.Consumer.ProcessMessage | internal/tenant/manager.go:319-348 | one settlement per delivery; on Ack the pool has accepted exactly one more item, with the message's id and payload, the consumer's tenant and count 0; requeue exactly for a well-formed message it refused |
| Consumers.Consumer.ConsumeMessages | internal/tenant/manager.go:281-316 | the loop settles every delivery in order until it is told to stop; interleaved with everything else, the pool accepted exactly one item for each acknowledged delivery, in order, each with the consumer's tenant and count 0 |
| Isolation.NamesDistinct | internal/tenant/manager.go:213-216 | queue, dead-letter exchange and dead-letter queue names are injective in the tenant and distinct across kinds |
| Isolation.StepElsewhere | internal/tenant/manager.go:329-336 | no step of one tenant changes what another sees |
| Isolation.StepHere | internal/tenant/worker_pool.go:192-246 | what a tenant sees after its own step depends only on what it saw before |
| Isolation.RunLabelled | internal/tenant/manager.go:328-334 | in every run a work item carries its consumer's tenant, whatever the body said, and count 0 |
| Isolation.NonInterference | internal/tenant/manager.go:280-436 | after every run a tenant sees what it would see had only its own steps happened |
| Isolation.QueueConservation | internal/tenant/manager.go:280-436 | over every run the bodies published for a tenant are, in order, those its consumer took followed by those still in its queue |
| Isolation.WorkConservation | internal/tenant/manager.go:328-347 | over every run the well-formed bodies taken from a tenant's queue are, as work items labelled with that tenant, finished or still in work; none is lost, duplicated or relabelled |
| Isolation.DeadLetterQueueGains | internal/tenant/manager.go:318-326 | over every run the malformed bodies taken are, in order, what the tenant's dead-letter queue gained |
| Publishers.Publisher.Publish | internal/rabbitmq/publisher.go:31-64 | the message is appended to the tenant's queue if and only if every step succeeded, and no other queue changes |
| Publishers.Publisher.PublishBatch | internal/rabbitmq/publisher.go:67-113 | all messages in order exactly if nothing failed and the broker applied the commit, else the queue is unchanged; never a part of the batch |
| Publishers.Publisher.PublishEach | internal/rabbitmq/publisher.go:31-64 | the same messages published singly leave the same queue as the batch |
| Connection.ConnectionSafety | internal/rabbitmq/connection.go:30-160 | in every interleaving `closed` is permanent, nothing is installed after it, and Connect called from inside Channel never gets the lock |
| Connection.WatcherReconnects | internal/rabbitmq/connection.go:136-160 | the watcher of a lost connection brings it back, with a new channel and a new watcher, if its one dial succeeds; if not, it is gone and the connection still lost |
| Connection.ComesBackIff | internal/rabbitmq/connection.go:30-160 | a connection that is not open can come back without a further call of Connect or NewChannel if and only if it is not closed, nobody holds the lock, and a watcher or an earlier such call is still on its way to dial |
| Connection.OneFailedDialIsFinal | internal/rabbitmq/connection.go:147-156 | if the last watcher's dial fails, the connection stays lost until somebody calls Connect or NewChannel |
| Connection.ConnAndChannelNilTogether | internal/rabbitmq/connection.go:58-84 | conn and channel are nil together, so a call of Channel sees a nil channel only before the first successful Connect |
| Connection.NestedConnectDeadlocks | internal/rabbitmq/connection.go:68-75 | a caller of Channel that finds no open connection keeps the lock for ever, and nothing connects or closes again |
| Connection.JamHoldsUpAll | internal/rabbitmq/connection.go:30-160 | then everybody who needs the lock, callers and reconnecting watchers alike, stays where it is for ever |
| Connection.ChannelDeadlocksIff | internal/rabbitmq/connection.go:58-75 | in every reachable state a call of Channel about to read can end waiting for its own lock if and only if there is no channel and nobody holds the lock |
| Connection.DeadlockFreeIff | internal/rabbitmq/connection.go:58-84 | no run can ever jam the connection if and only if it has a channel and nobody is still between seeing a nil channel and returning |
| Connection.SettledForGood | internal/rabbitmq/connection.go:58-65 | once so, always so: the lock stays free and Channel returns at its first read, whatever else happens |
| Connection.ChannelBeforeConnectDeadlocks | internal/rabbitmq/connection.go:58-75 | the shortest instance: one call of Channel on a new connection |
| Connection.ChannelAfterConnectDeadlocks | internal/rabbitmq/connection.go:58-75 | an instance with a successful Connect in between: the caller saw nil before it and the connection is lost again when it gets the lock |

## Left out

- HTTP handlers, authentication, users, metrics and configuration: input, output and library calls.
- ListTenants, GetTenant, GetMessage, CreateMessage and the dead-letter listing: single statements with no interplay between them.
- SubmitRabbitMQMessage: nothing calls it; items with any initial retry count, which is all it adds, are covered by the pool and retry models.
- The text of timestamps, cursors, UUIDs and JSON: reduced to "floored to the second", "does not parse", a parse/print pair and "decodes into an object".
- Partitions and their trigger: messages are one table keyed by id and tenant.
- Message expiry and the broker's redelivery order: a refused delivery goes back to the head of its queue; a failed Ack is not followed up.
- Backoff.Pause: the conversion of powers from 2^63 on to an integer, which Go leaves to the platform, is not modelled; the jitter is any value within a five-hundredth of its duration of the exact one, so its float64 rounding is covered but not computed.
- WorkerPools.WorkerPool.Resize: the conversion of worker counts to int32 is not modelled; counts of 2^31 and more would be truncated.
- WorkerPools.WorkerPool.constructor: a negative count, for which making the channel panics, is excluded.
- Managers.Manager.ShutdownAll: calls of Resize during it are left to ManagerMachine; the consumer's own Done and AMQP channels are closed there too.
- Managers.TenantRoutes.CreateTenant: a name that is already taken counts as a failed insert; tenant names are not stored.
- RowRuns.RowsAsIfAlone: assumes that no two workers are at work on the message at once, which a message published twice under one id can violate; `RowRuns.CallsInEveryRun` says what remains true then.
- RegistryRuns.OvertakingAgreesIff: assumes canonical ids; other spellings are covered by `RegistryRuns.RunAgreesIff` alone.
- Connection: modelled as a step machine on values, not as an object; DeclareTenantQueue and DeleteTenantQueue repeat the manager's naming and are not modelled again.
- Context timeouts and the graceful-shutdown timeout: a statement that times out counts as failed.
