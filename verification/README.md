# Repgate: a verified model of the reputation gate

Repgate answers, for every request that reaches a reverse proxy, whether the client address may pass.
A check looks in an in-memory LRU cache (L1), then in the SQLite table `ip_records` (L2), then asks
the AbuseIPDB API, guarded by a circuit breaker. Active defence writes an address into both stores
when it touches a honeytoken path and may report it to AbuseIPDB in the background. A worker deletes
what has expired. Decisions are published as events, stored, streamed to subscribers and paged by the
live feed. This project models that state and proves what keeps it in agreement.

## How the model is built

- `Records`, `Sequences`: addresses, instants, records; filtering and the subsequence order.
- `LinkedList`, `IpCache`, `Recency`, `LruTheory`: L1 on the heap (a map of entries that point into a
  ring of list nodes) refines a plain recency list; theorems about runs of that list.
- `CircuitBreaker`, `BreakerBound`, `DeadApi`: the two breaker fields, the bound on calls to a dead
  API, a run that meets the bound, and the bound for the gate itself.
- `Table`, `Gate`, `ThreatSource`: the table as a map; each whole operation as a function of the state;
  the classes and methods that are proved against those functions.
- `Operations`, `Calendar`: what each whole operation does, said by the fields of the records and the
  outcome of each access instead of by the functions; the end of a permanent block from the calendar.
- `Coherence`, `Transparency`, `BlockPersistence`, `Provenance`: theorems over serial runs.
- `LiveCoherence`, `LiveBlock`, `Reporting`, `ReportedBlock`: the same operations split into steps that
  interleave, and the lemmas that an uninterrupted sequence of steps is the operation of `Gate`.
- `EventLog`, `EventHub`, `EventService`, `EventFeed`: the event table, the fan-out as a state machine
  and as objects that take its steps, the live feed.
- `CheckHandler`: the `/check` endpoint and its source loop. `Migrations`: schema migrations over restarts.

Instants are integers counting nanoseconds from Go's zero time. The API's answers, the clock, database
faults and map iteration order are inputs or are left open, so the theorems hold for all of them. A
check reads the clock when it starts (`now`) and when the API has answered (`done`); in between the
API may take any time. A write either fails without effect or succeeds. Statuses and sources, strings
in the program, are datatypes, since the program writes only the values modelled.

## What turned out to need a condition

- L1 keeps a record through its expiry instant, L2 does not, and the two sweeps differ in the same way.
  An operation keeps the stores in agreement if and only if it is not a deleting cleanup at the expiry
  instant of an L1 entry (`Coherence.StepCoherent`, and `Coherence.ExpiryCleanupIsReachable`).
- L1 is invisible in a run, in its replies, API calls, breaker and live rows, if and only if L1 never
  answers a check at the expiry instant of its record or while the check's table read fails, and no
  report stops at a reported threat row that has expired (`Transparency.RunMirrorsExactly`, with any
  faults, background reports and cleanups). `Transparency.L1IsTransparent` is the exact condition for
  two gates that differ in L1; `Transparency.CapacityShowsAtExpiry` is a run in which capacity shows.
- The gauges are right in every state of a serial run if and only if every operation counts right
  (`Coherence.GaugesCountTheTable`): a check that drops an expired L1 entry deletes a row of the same
  status, no write goes over a row whose read failed, and no failed recount follows a deletion of what it
  counts. Off expiry instants only the failed reads remain (`Coherence.GaugesCountOffExpiry`).
- A honeytoken report returns early on a threat row that is already reported even when that row has
  expired. `BlockPersistence.ReportBlocksUnlessStale` states exactly when a report blocks, and
  `BlockPersistence.StaleReportIsReachable` gives a run in which it does not.
- The mark of a background report writes back the record the flight read, so it can shorten a newer
  block. `ReportedBlock.BlockPersistsUnderReports` states exactly when a block survives every
  interleaving, and `ReportedBlock.ShortFlightIsReachable` gives a run that leads to one that does not.
- Active defence only writes; the AbuseIPDB source is what reads the block. With that source switched
  off or without its API key a blocked address passes on every path that is no honeytoken
  (`CheckHandler.BlockedRequestsGet403`, `CheckHandler.BlockIsNotReadWithoutSource`).
- At-most-once reporting depends on the record a flight carries. While the row of an address does not
  lapse, no mark fails, no check deletes the row and no report overwrites a reported threat row it could
  not read, the address is reported at most once if and only if no safe record is in play: none that a
  waiting task can still fetch and none, still live, that a flight is about to report
  (`Reporting.AtMostOnce`; `Reporting.LeftIsExact` gives the largest number of deliveries from any
  state). Safe flights do occur (`Reporting.SafeFlightIsReachable`), and each of the four exceptions is
  enough to report again (`Reporting.LapsedRowReportsAgain`, `Reporting.FailedMarkReportsAgain`,
  `Reporting.DeletedRowReportsAgain`, `Reporting.MissedReadReportsAgain`).
- Two operations of one address may not interleave: `LiveCoherence.TwoReportsDisagree` leaves different
  live records in L1 and L2.
- The configuration comments and the manual say that a score above the threshold is blocked; the code
  blocks a score equal to it as well (internal/threatcheck/abuseipdbclient.go:227). The model follows the code.

## Model

| member | source | states |
|---|---|---|
| IpCache.IPCache.constructor | internal/cache/ip_cache.go:26-34 | a new cache is structurally valid and empty |
| IpCache.IPCache.Get | internal/cache/ip_cache.go:36-47 | returns the record held for the address, if any; the recency list becomes `Touch` of the old one; structure and threat counter stay exact |
| IpCache.IPCache.Set | internal/cache/ip_cache.go:49-82 | the recency list becomes `Put` of the old one: update in place, or insertion after evicting at capacity; structure and threat counter stay exact |
| IpCache.IPCache.Remove | internal/cache/ip_cache.go:84-95 | exactly the entry of that address leaves map, list and counter |
| IpCache.IPCache.EvictLRU | internal/cache/ip_cache.go:97-110 | exactly the last list entry leaves; an empty cache is left alone |
| IpCache.IPCache.RemoveExpired | internal/cache/ip_cache.go:112-125 | for every iteration order of the map, the list becomes `Sweep` of the old one |
| IpCache.IPCache.NumOfEntries | internal/cache/ip_cache.go:131-135 | the map's size is the length of the recency list |
| IpCache.IPCache.ThreatCount | internal/cache/ip_cache.go:137-141 | the running counter is the number of threat records held |
| IpCache.Shape | internal/cache/ip_cache.go:17-24 | a valid cache has one list node per map key, no address twice, and finds through the list what the map holds |
| Recency.SweepIsExact | internal/cache/ip_cache.go:112-125 | the sweep removes exactly the entries that expired before the cutoff, keeps the order of the others, and lowers size and threat count by exactly the removed ones |
| Recency.PutIsExact | internal/cache/ip_cache.go:49-82 | a `Set` puts the new record first; an update in place and an insertion with room left drop nothing, an insertion into a full cache drops exactly the last entry; all other entries keep record, stamp and order |
| Recency.TouchIsExact | internal/cache/ip_cache.go:36-47 | a miss changes nothing; a hit moves the entry to the front under the new stamp and leaves the others as they are |
| Recency.ThreatsIsACount | internal/cache/ip_cache.go:137-141 | the count the running counter is proved against is the number of entries whose record is a threat |
| Recency.FindAfterPut | internal/cache/ip_cache.go:49-82 | after a `Set` the address has the new record; every other one keeps its record unless it was last in a full cache that did not hold the address; the size grows by one unless the address was held or one was dropped |
| Recency.FindAfterTouch | internal/cache/ip_cache.go:36-47 | a `Get` changes no record and evicts nothing |
| LruTheory.ReachableShape | internal/cache/ip_cache.go:49-82 | after any run from empty, no address occurs twice and the size is at most max(maxSize, 1) |
| LruTheory.LruInclusion | internal/cache/ip_cache.go:36-125 | for sizes n <= m (any integers) and any common run, the small list is a subsequence of the large one with equal records and stamps, its free room never exceeds the large one's, and every small hit is the same large hit |
| LruTheory.RecencyIsTimeOrder | internal/cache/ip_cache.go:40-44 | with a clock that does not go back, the list is sorted by non-increasing stamp, and each stamp is the instant of the run's last use of that address |
| LruTheory.EvictsLeastRecentlyUsed | internal/cache/ip_cache.go:97-110 | an insertion into a full cache removes one entry, and no entry's last use in the run is earlier than the victim's |
| CircuitBreaker.BreakerRemembersStreak | internal/threatcheck/abuseipdbclient.go:52-76 | the breaker refuses exactly when the last maxRetries outcomes were all failures and the cool-down since the latest has not passed; it counts the failures since the last success and keeps the instant of the latest failure |
| BreakerBound.BreakerBound | internal/threatcheck/abuseipdbclient.go:52-76 | with at most K checks in flight and no success, at most (max(M, 1) - 1 + K) + K * floor(T / C) requests are admitted in the first T time units |
| BreakerBound.BreakerBoundIsTight | internal/threatcheck/abuseipdbclient.go:52-76 | for all M, K >= 1, C > 0 and T some legal run admits exactly that many |
| DeadApi.DeadApiIsAskedRarely | internal/threatcheck/abuseipdbclient.go:115-132 | serial checks of the whole gate ask an API that never succeeds at most M + floor(T / C) times, whatever the stores hold |
| Table.CountsAfterUpdate | internal/storage/ip_repository.go:55-86 | how an upsert changes the number of rows and of threat rows |
| Table.CountsAfterDelete | internal/storage/ip_repository.go:88-95 | how a delete changes the number of rows and of threat rows, also when there is no row |
| Table.QueriesAreExact | internal/storage/ip_repository.go:25-52 | one query finds a row until the instant it expires, the other at any time |
| Table.StatementsAreExact | internal/storage/ip_repository.go:55-110 | each statement row by row: the whole row written with its default times, the one row deleted, the rows deleted at a cutoff, and no other change |
| ThreatSource.IPRepository.GetByIp | internal/storage/ip_repository.go:25-38 | returns a row only while it is live, and tells a missing row from a fault |
| ThreatSource.IPRepository.GetRecord | internal/storage/ip_repository.go:40-52 | returns the row, expired or not, and tells a missing row from a fault |
| ThreatSource.IPRepository.Update | internal/storage/ip_repository.go:55-86 | overwrites the row of the record's address with unset times filled in and returns it; a failed write has no effect |
| ThreatSource.IPRepository.Delete | internal/storage/ip_repository.go:88-95 | removes exactly that row; a missing row is no error |
| ThreatSource.IPRepository.DeleteExpired | internal/storage/ip_repository.go:97-110 | keeps exactly the rows that expire after the cutoff |
| Table.CountsAfterDeleteExpired | internal/storage/ip_repository.go:97-122 | the cleanup lowers the number of rows by exactly the dead rows and the number of threat rows by exactly the dead threat rows |
| ThreatSource.InitializeMetrics | cmd/repgate/main.go:107-119 | each gauge becomes the table's count unless its query fails |
| ThreatSource.AbuseIPDBThreatSource.AllowRequest | internal/threatcheck/abuseipdbclient.go:52-63 | answers as the breaker of the model state |
| ThreatSource.AbuseIPDBThreatSource.RecordSuccess | internal/threatcheck/abuseipdbclient.go:65-69 | resets the failures and nothing else |
| ThreatSource.AbuseIPDBThreatSource.RecordFailure | internal/threatcheck/abuseipdbclient.go:71-76 | counts a failure at that instant and changes nothing else |
| ThreatSource.AbuseIPDBThreatSource.CleanExpiredIP | internal/threatcheck/abuseipdbclient.go:139-154 | moves cache, table and gauges as `Gate.CleanExpiredIP` |
| ThreatSource.AbuseIPDBThreatSource.AbuseIPDBRequest | internal/threatcheck/abuseipdbclient.go:165-216 | moves table and gauges as `Gate.ApiRequest` and returns the saved record |
| ThreatSource.AbuseIPDBThreatSource.Check | internal/threatcheck/abuseipdbclient.go:78-137 | the whole new state, the reply and whether the API was asked are those of `Gate.CheckIP`, on every path |
| ThreatSource.AbuseIPDBThreatSource.CleanExpired | internal/threatcheck/abuseipdbclient.go:156-163 | sweeps L1 and touches nothing else |
| ThreatSource.CleanupTurn | cmd/repgate/main.go:160-180 | one turn of the worker moves the state as `Gate.Cleaned`, with every combination of failing queries |
| Operations.CheckReplies | internal/threatcheck/abuseipdbclient.go:78-137 | the reply on every path: the stores answer from their record, a failed table read is an error, the API's score decides, and when the breaker refuses, the API is silent or the score cannot be saved the check fails open or closed as configured; the API is asked exactly when neither store answers, the table could be read and the breaker allows it |
| Operations.CheckWrites | internal/threatcheck/abuseipdbclient.go:114-154 | the row, if any, that a check leaves for its address, with status, score, source and times; no other row changes; the breaker counts a failed request and closes on a success |
| Operations.CheckCaches | internal/threatcheck/abuseipdbclient.go:91-136 | L1 holds, in front, the record the check answered from, and nothing for the address if there was none |
| Operations.CleanupKeeps | cmd/repgate/main.go:160-180 | exactly the rows that expire later stay, exactly the L1 entries that do not expire earlier, and which gauge is recounted |
| ThreatSource.DefenceService.ReportThreat | internal/activedefence/activedefence.go:138-197 | moves the table, the gauges and every cache it was given, none or any number, as `Gate.Trip`; fails exactly on a bad address or a failed write; starts a background report exactly when it wrote, auto report is on and there is a client |
| ThreatSource.DefenceService.ReportToAbuseIPDB | internal/activedefence/activedefence.go:215-249 | moves the table and every cache as `Gate.Reported` |
| Operations.ReportWrites | internal/activedefence/activedefence.go:138-178 | a report changes nothing if the address is invalid, the write fails or it reads a threat row already reported; otherwise both stores hold a threat of score 100 from active defence until the configured end, and no other row changes |
| Operations.BlocksUntilTheEnd | internal/activedefence/activedefence.go:153-159 | a block ends after its duration, a permanent one at the last second of the year 9999 by the Gregorian calendar |
| Operations.BackgroundReportMarks | internal/activedefence/activedefence.go:215-249 | the reported mark, and nothing else, changes exactly when an unreported row is read, delivered and written; L1 then holds the marked record |
| Coherence.GaugesCountTheTable | cmd/repgate/main.go:107-119 | from a restart on, over any serial run, the gauges are the numbers of rows and threat rows in every state if and only if every operation counts right |
| Coherence.GaugesCountOffExpiry | cmd/repgate/main.go:160-180 | they do, and every L1 entry is its row in L2, when no cleanup falls on the expiry instant of an L1 entry and the gauge reads succeed |
| Coherence.StepCoherent | internal/threatcheck/abuseipdbclient.go:78-154 | a whole operation keeps every L1 entry identical to its L2 row if and only if it is not a deleting cleanup at the expiry instant of an L1 entry |
| Coherence.StepCounted | internal/threatcheck/abuseipdbclient.go:139-216 | an operation keeps exact gauges exact if and only if a check that drops an expired L1 entry deletes a row of the same status, no failed read precedes a write over a row, and no failed recount follows the deletion of what it counts |
| Coherence.CleanupOnExpiryDrifts | internal/storage/ip_repository.go:98 | a cleanup at the expiry instant of an L1 entry makes the next check of that address leave the entities gauge one below the table |
| Coherence.ExpiryCleanupIsReachable | cmd/repgate/main.go:160-180 | such a cleanup occurs in a run from empty stores, with that drift |
| Transparency.StepMirrorsExactly | internal/threatcheck/abuseipdbclient.go:91-112 | one operation, with any faults, shows the reply, API call, breaker and live rows of a gate that has no L1 if and only if L1 does not answer at an expiry instant or over a failing table read and no report stops at a dead row |
| Transparency.RunMirrorsExactly | internal/threatcheck/abuseipdbclient.go:78-154 | every operation of a run shows that if and only if none of them does one of these things |
| Transparency.RunTransparent | internal/threatcheck/abuseipdbclient.go:78-154 | then the replies and API calls of the whole run, its last live rows and its breaker are those of the gate without L1 |
| Transparency.L1IsTransparent | internal/threatcheck/abuseipdbclient.go:78-154 | two gates that differ in L1 capacity, L1 contents and expired rows show the same in every operation of a common run if and only if at each operation neither stands alone in that way, or both do with the same verdict |
| Transparency.ExpiryInstantTellsThemApart | internal/threatcheck/abuseipdbclient.go:95-99 | at an exact expiry instant a gate with the record in L1 asks nothing, while one with an empty L1 asks exactly when its breaker allows |
| Transparency.CapacityShowsAtExpiry | internal/threatcheck/abuseipdbclient.go:95-99 | the same from empty stores: at that instant a gate of capacity one asks the API and a gate of capacity two does not |
| BlockPersistence.BlockPersists | internal/activedefence/activedefence.go:153-178 | after a report that wrote, every later check of that address before the configured end, for a permanent block the last second of 9999, says threat without asking the API, through evictions, cleanups, faults and other traffic; it returns an error exactly when its own table read fails and L1 has no entry |
| BlockPersistence.ReportBlocksUnlessStale | internal/activedefence/activedefence.go:148-151 | a faultless report leaves a live threat row exactly when the table did not hold an expired, already reported threat row |
| BlockPersistence.StaleReportIsReachable | internal/activedefence/activedefence.go:148-151 | a run from empty stores leads to such a row; the next report changes nothing and the next check says safe |
| ReportedBlock.BlockPersistsUnderReports | internal/activedefence/activedefence.go:215-249 | after any history, a report that wrote blocks its address in every interleaving with split background reports if and only if a flight already under way for it carries a record that convicts as long as the block lasts |
| ReportedBlock.BlockEndures | internal/activedefence/activedefence.go:237-245 | a block that both stores hold is kept by every run if and only if the flight for the address, when there is one, keeps it in the row it will mark and the cache entry it will refresh |
| ReportedBlock.ShortFlightIsReachable | internal/activedefence/activedefence.go:216-224 | a flight that does not keep the block occurs in a run from empty stores |
| Provenance.EveryRecordIsGenuine | internal/threatcheck/abuseipdbclient.go:165-216 | in any run from empty stores, every record in L1 or L2 is, up to its reported mark, the record of a score the API gave for that address or of a honeytoken report |
| Provenance.GenuineStatus | internal/threatcheck/abuseipdbclient.go:172-175 | a genuine record is a threat exactly when its score meets the threshold |
| Provenance.VerdictsAreFounded | internal/threatcheck/abuseipdbclient.go:91-136 | every verdict rests on an unexpired genuine record, on the API's answer, or is the fail-open verdict, which is never a threat and writes no row |
| LiveCoherence.LiveEntriesAreRows | internal/threatcheck/abuseipdbclient.go:91-136 | after any interleaving of steps of different addresses and the worker, an address with no operation in flight whose L1 entry is unexpired has the identical row in L2 |
| LiveCoherence.NextKeepsInv | internal/activedefence/activedefence.go:138-259 | every single step keeps what each point of every operation relies on |
| LiveCoherence.AtomicCheck | internal/threatcheck/abuseipdbclient.go:78-137 | an uninterrupted sequence of steps, with any time for the API to answer, is the serial check of `Gate` |
| LiveCoherence.AtomicReport | internal/activedefence/activedefence.go:138-178 | an uninterrupted sequence of steps is the serial report of `Gate` |
| LiveCoherence.AtomicBackgroundReport | internal/activedefence/activedefence.go:215-249 | an uninterrupted sequence of steps is the serial background report of `Gate` |
| LiveCoherence.AtomicCleanup | cmd/repgate/main.go:160-180 | three uninterrupted steps of the worker are its serial turn of `Gate` |
| LiveCoherence.TwoReportsDisagree | internal/activedefence/activedefence.go:171-178 | two reports of one address that interleave leave different live records in L1 and L2 |
| LiveBlock.BlockPersistsAmongSteps | internal/threatcheck/abuseipdbclient.go:91-112 | after any history, once a report has written its row, in every interleaving with the steps of other addresses and the worker every check of the address before the block ends answers from a convicting record or gives up on a failed table read, and none goes to the API |
| Reporting.AtMostOnce | internal/activedefence/activedefence.go:199-259 | with auto report on, from any world with a live row, every undisturbed run reports the address at most once if and only if no waiting task can fetch a safe unreported row and no flight is about to report a safe live record |
| Reporting.LeftIsExact | internal/activedefence/activedefence.go:199-259 | a number computed from row, flight and waiting tasks is the largest number of successful reports of any undisturbed run |
| Reporting.NeverAgain | internal/activedefence/activedefence.go:237-240 | once a report is delivered, no undisturbed run delivers another if and only if the record its flight carried was not both safe and live |
| Reporting.AtMostOnceAfterReport | internal/activedefence/activedefence.go:138-259 | after any history, from a report that wrote: at most one delivery in every undisturbed run if and only if no flight was about to report a safe live record |
| Reporting.UninterruptedFlight | internal/activedefence/activedefence.go:215-249 | read, call, mark and refresh in a row are the serial background report of `Gate` |
| Reporting.SafeFlightIsReachable | internal/activedefence/activedefence.go:216-224 | such a flight occurs in a run from empty stores |
| Reporting.MissedReadReportsAgain | internal/activedefence/activedefence.go:143-151 | one failed read of the existing row lets a delivered and marked report be delivered again |
| Reporting.FailedMarkReportsAgain | internal/activedefence/activedefence.go:236-240 | one failed mark lets a delivered report be delivered again |
| Reporting.LapsedRowReportsAgain | internal/storage/ip_repository.go:97-110 | once the reported row has expired and is deleted, the next report is delivered again |
| Reporting.DeletedRowReportsAgain | internal/threatcheck/abuseipdbclient.go:139-154 | a check that finds an expired copy in L1 deletes a row that is still live, and the next report is delivered again |
| Reporting.ExpiredCopyIsReachable | internal/activedefence/activedefence.go:236-245 | such a copy beside a live reported threat row occurs in a run from empty stores |
| EventLog.PageIsNewest | internal/storage/event_repository.go:37-84 | a page holds rows of the action asked for with a smaller id, in descending id order, at most the limit; every such row it leaves out is older than all of it, and a short page leaves none out |
| EventLog.RetentionIsExact | internal/storage/event_repository.go:86-93 | exactly the rows with a later timestamp stay, in order |
| EventLog.InsertIsExact | internal/storage/event_repository.go:21-35 | the row has every field of the event and an id no row ever had |
| EventLog.EventRepository.Insert | internal/storage/event_repository.go:21-35 | a successful insert appends the event under the next id, and names it in the event if the driver tells it |
| EventLog.EventRepository.GetEvents | internal/storage/event_repository.go:37-84 | returns that page unless the query or a scan fails |
| EventLog.EventRepository.DeleteOlderThan | internal/storage/event_repository.go:86-93 | keeps exactly the events after the cutoff, in order, never reuses an id, and reports how many went |
| EventFeed.LiveTrafficFeed.FetchInitialEvents | web/src/lib/LiveTrafficFeed.svelte:38-55 | the feed becomes the newest page, with its cursor and its "more" flag; a failed request changes nothing |
| EventFeed.LiveTrafficFeed.LoadMoreEvents | web/src/lib/LiveTrafficFeed.svelte:57-78 | the feed grows by the page older than its cursor; a failed request changes nothing |
| EventFeed.PagingIsComplete | web/src/lib/LiveTrafficFeed.svelte:38-78 | while newer events arrive, the feed is always a prefix of the first page's log in descending id order, filtered by action exactly for "allow" and "block"; it is all of it when the feed says there is no more, and the feed says so after at most one page per fifty events |
| EventHub.EventsAreConserved | internal/event/service.go:53-74 | over every interleaving from any table, published events are dropped, queued or taken; accepted events are taken in order; the table grows by exactly the taken events whose insert succeeded, in order |
| EventHub.DropsAreRefusals | internal/event/service.go:69-73 | over every interleaving, as many events are dropped as were published while 10000 waited |
| EventHub.MissesAreLosses | internal/event/service.go:98-104 | over every interleaving, a subscriber misses as many events as were handed out while it was subscribed and 100 waited for it |
| EventHub.PublishIsExact | internal/event/service.go:53-74 | the waiting event has every field it was published with, except an empty source, which becomes "System" |
| EventHub.BroadcastIsExact | internal/event/service.go:98-105 | who gets the event in hand, who misses it and who is not touched |
| EventHub.TakeIsExact | internal/event/service.go:87-96 | the oldest event is stored and handed on whether or not that works, under its new id if the driver told it |
| EventHub.SubscribersSeeTheirShare | internal/event/service.go:87-107 | over every interleaving, what a subscriber read plus what waits for it is a subsequence of the events processed while it was subscribed, short by exactly those that found its channel full, and all of them if none did |
| EventHub.SubscribersSeeRisingIds | internal/event/service.go:98-105 | the stored events each subscriber sees carry strictly rising ids |
| EventHub.ClosedChannelsStayQuiet | internal/event/service.go:46-51 | an unsubscribed channel receives nothing more; only what it held can still be read |
| EventService.ServiceIsAHub | internal/event/service.go:87-107 | the objects are always in a state the hub reaches by the steps their methods took, so conservation, shares and rising ids hold of queue, table and channels |
| EventService.Service.Subscribe | internal/event/service.go:38-44 | adds a new open, empty channel; one hub step |
| EventService.Service.Unsubscribe | internal/event/service.go:46-51 | closes the channel once and forgets it, so every remaining subscriber is open; one hub step |
| EventService.Service.Publish | internal/event/service.go:53-74 | offers the completed event to the bounded queue, or does nothing with retention off; at most one hub step |
| EventService.Service.ProcessNext | internal/event/service.go:87-107 | takes the oldest event, stores it, and offers it to every subscriber, in any order of the set, never to a closed channel; two hub steps |
| CheckHandler.Handler.Check | internal/api/handlers/check_handler.go:45-118 | status, published event, threat counter and number of sources asked on every early return |
| CheckHandler.ResponseIsExact | internal/api/handlers/check_handler.go:45-118 | status, published event and sources asked for every client and every list of sources: the first enabled source that fails or says threat decides, without one "System" allows, local and invalid requests ask nobody |
| CheckHandler.SourceLoop | internal/api/handlers/check_handler.go:76-118 | 403 exactly when an enabled source says threat and none before it fails; fail-closed 200 exactly when every enabled source says safe and 500 exactly when one fails after only safe ones; fail-open never 500 |
| CheckHandler.DisabledSourceInserted | internal/api/handlers/check_handler.go:77-82 | a disabled source inserted anywhere changes nothing |
| CheckHandler.BlockedRequestsGet403 | cmd/repgate/main.go:121-158 | end to end for every deployment and every request: after a report that wrote, a request before the block ends gets 403 if and only if its header is missing or invalid, or it is not local and either asks for a honeytoken with active defence on, or the AbuseIPDB source is built, has its key and can read the block |
| CheckHandler.DeploymentAnswers | internal/api/handlers/check_handler.go:76-118 | status and published event of a request with a valid, not local address for every deployment, without the loop |
| CheckHandler.BlockIsNotReadWithoutSource | cmd/repgate/main.go:132 | without a usable AbuseIPDB source an address blocked a moment ago gets 200 |
| Migrations.ListSqlFiles | internal/storage/migrations.go:46-51 | lists the files in listing order |
| Migrations.SqlFilesAreExact | internal/storage/migrations.go:46-51 | the files are exactly the names that end in ".sql" of entries that are no directories |
| Migrations.FilesKeepOrder | internal/storage/migrations.go:53 | whatever relation sorts the listing sorts the files, so sorting them changes nothing and no file is listed twice |
| Migrations.Store.RunMigrations | internal/storage/migrations.go:15-79 | database and result of one run are those of `Run`, for every early error and every way each file can fail |
| Migrations.MigrationsResume | internal/storage/migrations.go:32-76 | over any number of starts the recorded set is a prefix of the files, and each file was executed once for its record and once per lost record |
| Migrations.RunSucceedsExactly | internal/storage/migrations.go:15-79 | a run returns without error exactly when its preparations succeed and it leaves every file recorded |
| Migrations.NoSecondExecution | internal/storage/migrations.go:68-75 | a file is executed twice only if recording it failed, and is whenever it was recorded after such a failure |
| Migrations.CleanStartCompletes | internal/storage/migrations.go:55-76 | one start without failures records every file, whatever failed before |

## Left out

- LiveCoherence.LiveEntriesAreRows: operations of one address do not interleave with each other; `TwoReportsDisagree` shows why.
- BlockPersistence.BlockPersists: every operation is one step; `ReportedBlock` splits the background report and `LiveBlock` every operation.
- ReportedBlock.BlockEndures: addresses are arbitrary strings, so there is always another one whose report evicts an entry.
- Reporting.AtMostOnce: a whole check, report or cleanup is one step; only the background report is split.
- EventFeed.PagingIsComplete: events are inserted between pages but not deleted; a retention delete between two pages removes rows the later pages would have shown. Events pushed by the stream are not merged into the feed.
- ThreatSource.AbuseIPDBThreatSource.Check: the clock is read once before the API call and once after it, not at each of the program's readings.
- IpCache.IPCache.Set: the mutex is not modelled; each method is one step.
- ThreatSource.DefenceService.ReportThreat: address parsing is an input.
- EventService.Service.ProcessNext: an event service without a repository, which stores nothing.
- Migrations.Store.RunMigrations: sorting is not a step, since `os.ReadDir` lists names in ascending order and `FilesKeepOrder` applies; a file's SQL either takes effect or fails.
- LinkedList models Go's container/list as a ring through a sentinel; that library is not part of the repository.
- An `Update` whose write succeeds while its read-back fails.
- The cache gauges, which are set from `NumOfEntries` and `ThreatCount` after checks and cleanups.
- The cleanup of events inside the worker's turn, which is `DeleteOlderThan` of the event repository.
- HTTP, JSON, server-sent events, static assets, the REST client, configuration loading, logging and alerts.
- SQL text, the SQLite driver and time serialisation; tables are maps and ordered logs with exact times.
- `ListRecords`, whose order among equal sort keys and whose offset paging are unspecified.
- Honeytoken patterns, address parsing and local network prefixes; their results are inputs.
