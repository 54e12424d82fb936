# FibreXWatch: verified model

FibreXWatch polls a Huawei ONT for cumulative traffic counters and a device list,
stores them in PostgreSQL, and serves usage reports to signed-in dashboard users.
This project models the parts of it that carry state or arithmetic and proves what
they promise over every input and every run.

| module | models |
|---|---|
| `Counters`, `Ledger`, `Tiling` | cumulative readings becoming usage intervals; what the intervals of a source look like after any history |
| `WanRegisters`, `TrueTraffic`, `Mischarges` | the stored totals against a router of several WAN records whose true traffic is known |
| `Usage`, `Calendar`, `Billing` | windows, buckets and summaries of intervals; the Gregorian calendar; plan cycles, budget and projection |
| `DeviceControl`, `BlockProtocol`, `Lifecycle` | the leased queue of block requests, one worker that may crash at any point beside any number of dashboard users, and the archiving and deletion of devices meanwhile |
| `HuaweiSession` | the adapter's session, its cached permanent failures and its renew-and-retry operations, against any router |
| `JavaScript`, `HuaweiText`, `HuaweiCalls`, `HuaweiWan`, `HuaweiDevices` | the page parsers: argument splitter, hex-escape decoder, call extraction, 64-bit totals, device list; a page printer serves as their specification |
| `Snapshots`, `Presence`, `Streaks` | device rows and presence readings, the active-device count, sessions as maximal online runs |
| `Collector` | the worker's health record and retry delay |
| `DashboardSessions`, `LoginThrottle` | accounts, sessions and their invalidation under interleaving; the failed-login limiter |

A table is a sequence or a map held by a class, and a transaction is one method
whose postcondition gives the new table as a function of the old one; the theorems
are about those functions. Whole runs are folds of such steps over arbitrary lists
of events. Each module states only the columns its properties read, so device rows
appear in three forms: what the router lists, what snapshots keep, and what the
block queue needs. Instants are microseconds from Go's zero time; a time zone is
a fixed offset.

What the proofs brought out:

- `docs/HUAWEI.md` calls the WAN totals accurate and every lower counter a reset.
  A reading is the sum of the WAN records that a poll finds, so one record that
  restarts, rolls over or is missing from a page makes the sum fall, and everything
  the other records show is then charged again; a record that returns is charged
  again in full (`Mischarges.OverChargedRun` charges 15 bytes each way although none
  was carried). The other way, the adapter reports no uptime, so a reboot whose
  counters have grown past the last reading by the next poll goes unnoticed, and all
  that the last reading showed is lost (`WanRegisters.RestartLoses`,
  `Mischarges.UnnoticedRebootLosesReading`; `Mischarges.UnderChargedRun` charges 5 of
  20 bytes). Every gap has its exact conditions (`WanRegisters.GapOverCountsIff`,
  `WanRegisters.GapUnderCountsIff`) and every run its balance of bytes charged again
  and bytes left unseen (`TrueTraffic.BooksBalance`). Usage is never over-counted
  while all records restart together, nothing rolls over and the page stays the same
  (`TrueTraffic.NeverOverCounts`), and is exact while nothing disturbs the records
  between the first and the latest reading (`TrueTraffic.ExactWhileCalm`).
- `recorded_at` is unique over all sources. A reading at another source's instant is
  skipped while its interval is still written, and the intervals of that source
  never tile again (`Tiling.TilingExact`, `Tiling.ClashIsForever`).
- A bucket is closed at its start and a window at its end, so an interval ending on
  a boundary moves to the next period, and can add a row after the last day of a
  report (`Usage.PeriodRowAgainstSummary`, `Usage.BoundarySpillsOver`).
- A completion whose error text is empty is stored as a success without blocking
  the device (`BlockProtocol.CompletionHonestIff`, with a run in
  `BlockProtocol.SilentFailure`). Neither adapter in the repository returns such an
  error today.
- `README.md` speaks of one login attempt per worker process, `docs/HUAWEI.md` of one
  initial attempt and one controlled reauthentication when a session expires. After
  a successful start-up there is indeed no other attempt until an operation finds its
  session gone (`HuaweiSession.OneAttemptIff`); but sessions may expire any number of
  times, and a renewal that fails in passing is retried by the next operation
  (`HuaweiSession.FailedRenewalIsRetried`). What holds in every serialised run is that
  nothing follows a permanent failure (`HuaweiSession.LockoutSafety`); two overlapping
  renewals break that (`HuaweiSession.OverlappingRenewalsAreRefusedTwice`).

## Model

| member | source | states |
|---|---|---|
| Counters.CalculateDelta | api/internal/router/router.go:69-82 | usage between two readings: a reset exactly when any of the three counters falls, then the current counters; otherwise what closes the gap |
| Counters.SegmentsFlatten | api/internal/router/router.go:69-82 | cutting readings into reset-free segments loses and reorders nothing |
| Counters.SegmentsCutAtResets | api/internal/router/router.go:69-82 | the cuts fall at resets and nowhere else |
| Counters.DeltasTelescope | api/internal/router/router.go:69-82 | the summed usage of consecutive readings is the growth over the first reset-free segment plus the last counter of every later one, for both directions |
| Ledger.Latest | api/internal/store/ingestion.go:22-37 | the newest stored reading of a source, missing only if the source has none |
| Ledger.Since | api/internal/store/ingestion.go:85-89 | pruning keeps exactly the readings at or after the cutoff |
| Ledger.Store.RecordConnectionReading | api/internal/store/ingestion.go:12-72 | refused exactly for an empty source or a counter beyond the signed 64-bit columns, and then nothing changes; otherwise the tables become `Recorded` of the old ones |
| Ledger.Store.PruneRawData | api/internal/store/ingestion.go:74-91 | of the tables here only raw readings go; intervals and events stay |
| Tiling.RecordedView | api/internal/store/ingestion.go:39-67 | recording changes the first reading, latest reading and intervals of its own source only |
| Tiling.TilingStep | api/internal/store/ingestion.go:49-58 | a reading keeps a tiled source tiled exactly unless it extends the source at a taken instant; nothing restores tiling |
| Tiling.TilingExact | api/internal/store/ingestion.go:23-58 | for any arrival order and any sources, the intervals of a source tile the span from its first-arrived to its latest reading if and only if none of its readings ever clashed |
| Tiling.DistinctInstantsNeverClash | api/migrations/00001_initial.sql:9 | readings of different sources at different instants never clash |
| Tiling.TilingWithoutSharedInstants | api/internal/store/ingestion.go:23-58 | late and duplicate readings leave tiling intact while sources share no instant |
| Tiling.ClashIsForever | api/internal/store/ingestion.go:39-58 | after a clash no later readings make the source tile again |
| Tiling.SharedInstantBreaksTiling | api/internal/store/ingestion.go:44-58 | a concrete history in which two sources share an instant and tiling is lost |
| Tiling.EventsMatchIntervals | api/internal/store/ingestion.go:49-66 | over any history one `counter_reset` event exists per reset interval, in order, and an interval is estimated exactly when longer than two minutes |
| Tiling.PruningNeverOverlaps | api/internal/store/ingestion.go:74-91 | readings in increasing order with prunes at any moment leave intervals in order without overlap |
| Tiling.DisjointMeaning | api/internal/store/ingestion.go:49-58 | what the recursive no-overlap predicate says of any two intervals |
| Tiling.PruneOpensGapIff | api/internal/store/ingestion.go:85-89 | a prune disconnects a source exactly when its cutoff passes the latest reading, which is the next baseline |
| Tiling.AscendingLedger | api/internal/store/ingestion.go:49-58 | a source whose readings increase, among any readings of others at other instants, stores exactly its own consecutive deltas |
| Tiling.LedgerTelescopes | api/internal/store/ingestion.go:49-58 | conservation: the stored total of such a source is its telescoped counter growth |
| WanRegisters.PageReads | api/internal/router/huawei_adapter.go:308-353 | from the text of a printed page, the parser accepts exactly a readable page - some record listed, both totals within 64 bits - and its totals are the sums over the listed records |
| WanRegisters.GapBalances | api/internal/router/router.go:69-82 | for any records, restarted, dropped or new, what a gap stores and leaves unseen equals what was carried and what is charged again, per direction |
| WanRegisters.GapOverCountsIff | api/internal/router/router.go:71-82 | a gap stores more than was carried exactly when, as a reset, the listed registers that kept counting held more than was carried unseen; or, without one, the newly listed held more than was carried unseen and went with dropped or restarted records |
| WanRegisters.GapUnderCountsIff | api/internal/router/router.go:71-82 | a gap stores less than was carried exactly when it leaves more unseen than it charges again |
| WanRegisters.RestartLoses | api/internal/router/router.go:72-82 | when all records restart, the charge misses what was carried before the restart, and the whole previous reading too if no reset is seen |
| WanRegisters.ResetNeedsDisturbance | api/internal/router/router.go:72-74 | while no register restarts and no record is dropped, a gap is a reset only by a shorter uptime |
| TrueTraffic.InvStep | api/internal/store/ingestion.go:22-67 | traffic on a record, restarts, rollovers, drop-outs, returns, reboots, waiting, polls and prunes all keep the books: stored usage, latest reading, reset events and true totals agree |
| TrueTraffic.BooksBalance | api/internal/store/ingestion.go:22-67 | conservation over every run: stored plus unseen bytes are the traffic between the first and the latest reading plus the bytes charged again, so usage is over-counted exactly when more is charged again than left unseen, and under-counted exactly when less is |
| TrueTraffic.ResetsHaveCauses | api/internal/store/ingestion.go:59-66 | over every run reset events never outnumber the steps that restarted, rolled over or dropped a record |
| TrueTraffic.NeverOverCounts | api/internal/router/router.go:69-82 | if every restart takes all records with it, nothing rolls over and the page stays the same, stored usage is never above the true traffic |
| TrueTraffic.ExactWhileCalm | api/internal/store/ingestion.go:49-58 | whatever happens before the first stored reading and after the latest, if all records are listed and in between nothing restarts, rolls over or drops out and no prune takes the latest reading, stored usage is exactly the traffic between the two |
| Mischarges.DropAndReturnChargesAll | api/internal/router/huawei_adapter.go:330-341 | from any just polled router, a record missing from one poll and back at the next charges all that the router shows once more, with nothing carried |
| Mischarges.RestartChargesOthers | api/internal/router/router.go:72-76 | one of several records restarting charges all that the others show once more |
| Mischarges.RolloverChargesUploads | api/internal/router/router.go:72-76 | a download counter rolling over charges all uploads once more |
| Mischarges.OverChargedRun | api/internal/router/huawei_adapter.go:324-348 | a run from an empty ledger in which 15 bytes are charged each way and none was carried after the first reading |
| Mischarges.UnnoticedRebootLosesReading | api/internal/router/router.go:71-82 | from any just polled router without uptime, a reboot followed by traffic is charged exactly, with a reset event, if a total is still below the last reading, and otherwise misses all that reading showed, without an event |
| Mischarges.UnderChargedRun | api/internal/router/huawei_adapter.go:541-577 | a run in which 5 of the 20 bytes carried each way after the first reading are charged |
| Usage.SumSplits | api/internal/store/usage.go:74-83 | sums over a condition split along any two conditions that partition it |
| Usage.SumsAreOfStoredBytes | api/internal/store/usage.go:15-23 | whatever a condition selects, the sums are the stored download and upload bytes of exactly the selected intervals, and the count is theirs |
| Usage.SummaryOfWindow | api/internal/store/usage.go:72-89 | a summary adds up the bytes of exactly the source's intervals that end after the window's start and no later than its end; all of them when the window holds all |
| Usage.ReportsTelescope | api/internal/store/usage.go:72-89 | from readings to report: a window around all intervals of a source shows its telescoped counter growth, each way |
| Usage.AdjacentWindowsAdd | api/internal/store/usage.go:72-89 | summaries of adjacent windows add up to that of the whole |
| Usage.PeriodsTile | api/internal/store/usage.go:14-16 | hours, days, weeks and months tile local time, and an instant is truncated into the one it lies in |
| Usage.PeriodsBegin | api/internal/store/usage.go:10-16 | periods begin on the hour, at midnight, on Mondays and on the first of the month |
| Usage.TruncateIs | api/internal/store/usage.go:14-16 | an instant truncates to a period's start exactly when it lies in that period in local time |
| Usage.HistoryExact | api/internal/store/usage.go:9-41 | rows are the non-empty periods in order, each with the sums of its own intervals, and together they make the window's summary |
| Usage.PeriodRowAgainstSummary | api/internal/store/usage.go:43-70 | a period's row equals its own summary except for intervals ending exactly on its boundaries, which move to the period they open |
| Usage.BoundarySpillsOver | api/internal/store/usage.go:52-56 | a report that ends on a period start has a row for that next period made of exactly the intervals ending on the boundary |
| Usage.UsageHistory | api/internal/httpapi/usage_handlers.go:61-103 | each granularity gives rows of its own periods, an empty one means days and an unknown one is the only failure; the loop's total is the window's summary, and total and comparison total make the joint window |
| Usage.Daily | api/internal/httpapi/usage_handlers.go:33-59 | the accumulated download and upload are the range's summary |
| Calendar.MonthOf | api/internal/httpapi/plan_handlers.go:56 | every day lies in the month found for it |
| Calendar.MonthOfIs | api/internal/httpapi/plan_handlers.go:56 | and in no other |
| Calendar.MonthInYear | api/internal/httpapi/plan_handlers.go:56 | every month begins where the familiar month lengths put it, with a leap day after February |
| Calendar.YearStart | api/internal/httpapi/plan_handlers.go:56 | the Gregorian rule in closed form: years of 365 days and a leap day every fourth but not hundredth, yet every 400th year |
| Calendar.AddMonthsOf | api/internal/httpapi/plan_handlers.go:56-60 | adding months to a date the month has keeps the day of month, before normalisation |
| Billing.CycleIsBetweenBillingDates | api/internal/httpapi/plan_handlers.go:55-60 | for billing days 1 to 28 a cycle runs between two consecutive billing dates around the instant |
| Billing.CyclesTileIff | api/internal/httpapi/plan_handlers.go:28 | among days 1 to 31, cycles tile time exactly for the accepted 1 to 28 |
| Billing.LateBillingDaysOverlap | api/internal/httpapi/plan_handlers.go:55-60 | for every later day a concrete pair of cycles overlaps |
| Billing.ReportSound | api/internal/httpapi/plan_handlers.go:61-81 | in exact arithmetic the projection extends the present rate and is at least the usage, exhaustion is reported exactly when the projection passes the allowance and is the instant inside the cycle where that rate uses it up, and the daily budget is the most each remaining day can spend |
| Billing.BudgetSound | api/internal/httpapi/plan_handlers.go:66-72 | the instant lies in its cycle; used and remaining make the allowance, or nothing remains |
| Billing.CyclesBillOnce | api/internal/httpapi/plan_handlers.go:55-65 | two consecutive cycles together bill every interval of their span once |
| DeviceControl.QueueIsLawful | api/internal/store/worker.go:101-119 | queueing answers 0 exactly for a missing or blocked device; otherwise the answer is the device's only pending request, asked for now, with the given network if none was pending and its earlier row and network if one was; no other row changes |
| DeviceControl.Store.QueueDeviceBlock | api/internal/store/worker.go:101-119 | the method keeps that law and the tables' keys |
| DeviceControl.OldestExists | api/internal/store/worker.go:127-133 | if any request can be claimed, some claimable one is oldest |
| DeviceControl.Store.PendingDeviceControl | api/internal/store/worker.go:121-148 | claims an oldest request that is unstarted or started over 30 seconds ago, and none exactly when there is none; hands out that request's device, its address and its network |
| DeviceControl.Store.CompleteDeviceControl | api/internal/store/worker.go:150-176 | completes the request with its error text, empty texts as none, and without an error blocks the device; no other row changes |
| DeviceControl.Store.ArchiveDevice | api/internal/store/devices.go:143-152 | archives a known device and keeps an earlier archive time |
| DeviceControl.Store.RestoreDevice | api/internal/store/devices.go:154-163 | clears the archive time of a known device |
| DeviceControl.Store.DeleteDevice | api/internal/store/devices.go:165-174 | deletes exactly archived devices, and their requests with them |
| BlockProtocol.InvStep | api/internal/store/worker.go:101-176 | queue, claim, router call, complete, crash, archive, restore, delete, snapshot and clock steps all keep the protocol's invariant |
| BlockProtocol.BlockingIsSafe | api/internal/collector/collector.go:76-99 | over every run of one worker: at most one pending request per device and none for a blocked one; every block follows a successful router call for a request of it; leases of a request are over 30 seconds apart; with non-empty error texts, blocked means exactly that a request completed without error |
| BlockProtocol.CallsNameTheNetwork | api/internal/collector/collector.go:76-90 | over every run, requests, the worker and every router call name the network the request was queued with |
| BlockProtocol.CompletionHonestIff | api/internal/store/worker.go:156-170 | completing keeps "succeeded implies blocked" exactly when the error text is not empty |
| BlockProtocol.SilentFailure | api/internal/store/worker.go:156-170 | a run with an empty error text whose request reads as a success while its device is not blocked |
| BlockProtocol.Serve | api/internal/collector/collector.go:76-99 | claiming, calling and completing the oldest request removes exactly it from the pending ones and blocks its device |
| BlockProtocol.QueueCanAlwaysDrain | api/internal/store/worker.go:121-148 | from every reachable world, a crash included, some continuation serves all pending requests and blocks their devices |
| Lifecycle.ArchivedIff | api/internal/store/devices.go:143-163 | over every run of the same steps, a device is archived exactly when it was archived after it was last restored or listed by a snapshot; addresses stay unique |
| Lifecycle.DeletedIff | api/internal/store/devices.go:165-174 | a deletion takes effect exactly on such an archived device, removes no other, and takes exactly its requests along |
| Lifecycle.StaysUnlessDeleted | api/internal/store/devices.go:165-174 | no other step of the system makes a device disappear |
| HuaweiSession.HuaweiAdapter.TryLogin | api/internal/router/huawei_adapter.go:143-216 | one login attempt: its outcome from the router's replies, recorded in the log of attempts |
| HuaweiSession.HuaweiAdapter.Authenticate | api/internal/router/huawei_adapter.go:115-127 | no attempt while authenticated or after a cached permanent failure; otherwise one, and its outcome is cached |
| HuaweiSession.HuaweiAdapter.Reauthenticate | api/internal/router/huawei_adapter.go:133-141 | always one attempt, replacing the cached outcome |
| HuaweiSession.PageAnswers | api/internal/router/huawei_adapter.go:260-275 | a page is in order exactly when well read with status 200 and no login form, and refuses exactly with 401, 403 or a login form |
| HuaweiSession.LoginAnswers | api/internal/router/huawei_adapter.go:182-216 | when exactly a login succeeds and when it is refused |
| HuaweiSession.WorkAnswers | api/internal/router/huawei_adapter.go:502-577 | when exactly the pages of each operation succeed and when they show the session gone |
| HuaweiSession.OperationAnswers | api/internal/router/huawei_adapter.go:482-500 | an operation succeeds exactly when its first work does, or finds the session gone, renews it and succeeds with the same work again; every other answer by its cause |
| HuaweiSession.HuaweiAdapter.BlockDevice | api/internal/router/huawei_adapter.go:482-525 | the method answers so: authenticate, check the arguments, work, and renew and retry once only on an authentication failure |
| HuaweiSession.HuaweiAdapter.Collect | api/internal/router/huawei_adapter.go:541-591 | the same answers for counters and device lists |
| HuaweiSession.RenewalSafeIff | api/internal/router/huawei_adapter.go:129-141 | a renewal keeps the history free of attempts after a permanent failure exactly when none is cached |
| HuaweiSession.OpStep | api/internal/router/huawei_adapter.go:115-141 | each operation keeps the cache equal to the last outcome, adds at most two attempts, and does nothing after a permanent failure |
| HuaweiSession.LockoutSafety | api/internal/router/huawei_adapter.go:111-141 | for any router and any serialised operations, at most one permanent failure ever, no attempt after it, and at most two submitted logins per operation |
| HuaweiSession.OneAttemptIff | api/internal/router/huawei_adapter.go:111-141 | after a successful start-up no other attempt is made exactly while no operation finds its session gone |
| HuaweiSession.FailedRenewalIsRetried | api/internal/router/huawei_adapter.go:115-141 | a serialised run of three attempts: start-up, a renewal failing in passing, its retry; the first operation fails and the second succeeds, and with a good renewal the first would have |
| HuaweiSession.NothingWithoutCredentials | api/internal/router/huawei_adapter.go:143-146 | without credentials nothing is ever submitted and one failed attempt is remembered |
| HuaweiSession.OverlappingRenewalsAreRefusedTwice | api/internal/router/huawei_adapter.go:133-141 | two renewals that overlap are both refused |
| JavaScript.SplitJavaScriptArgs | api/internal/router/huawei_adapter.go:277-306 | the loop with start, quote and escape state computes `Split` |
| JavaScript.SplitInverse | api/internal/router/huawei_adapter.go:277-306 | joining the pieces gives the input back, the pieces are separable, and a list survives join and split exactly when it is separable |
| JavaScript.ArgumentsRoundTrip | api/internal/router/huawei_adapter.go:282-301 | literals in either quotes with escapes, commas and the other quote inside, and bare text with backslashes, are split into exactly the arguments written |
| JavaScript.UnclosedTakesAll | api/internal/router/huawei_adapter.go:287-304 | a quote never closed takes all that follows into its argument |
| HuaweiText.DecodeEscape | api/internal/router/huawei_adapter.go:672-681 | decoding undoes the escaping of any text of codes below 256 and goes on with the rest on its own |
| HuaweiText.EscapedBackslashIsLiteral | api/internal/router/huawei_adapter.go:672-681 | an escaped backslash never opens an escape; decoding twice would differ |
| HuaweiText.ParseQuoted | api/internal/router/huawei_adapter.go:672-681 | a printed value is read back, whichever harmless characters are left unescaped |
| HuaweiText.ParseAnyQuoted | api/internal/router/huawei_adapter.go:672-681 | a value is read back from either kind of quotes with any white space around |
| HuaweiText.HexInEitherCase | api/internal/router/huawei_adapter.go:32 | hex digits are read in either case and nothing else is one |
| HuaweiText.NothingToDecode | api/internal/router/huawei_adapter.go:674-680 | text without a backslash is left as it is |
| HuaweiText.LoneBackslashStays | api/internal/router/huawei_adapter.go:32 | a backslash that starts no `\x` escape stays |
| HuaweiText.SpacesAre | api/internal/router/huawei_adapter.go:673 | tabs, line breaks and blanks are trimmed, printable characters are not |
| HuaweiCalls.CallFound | api/internal/router/huawei_adapter.go:27-30 | a call is found with any blank space before its parenthesis, up to the first closing one |
| HuaweiCalls.UnclosedIsNoCall | api/internal/router/huawei_adapter.go:27-30 | without both parentheses there is no call |
| HuaweiCalls.FoundAmong | api/internal/router/huawei_adapter.go:27-30 | on a page that mixes calls of two names, exactly those of each name are found, in order |
| HuaweiCalls.FindPrinted | api/internal/router/huawei_adapter.go:27-30 | the calls of a printed page are found, all and in order |
| HuaweiCalls.FindsNothing | api/internal/router/huawei_adapter.go:27-30 | a text lacking a character of the name holds no call of it |
| HuaweiCalls.SplitPrinted | api/internal/router/huawei_adapter.go:277-306 | splitting and decoding a printed record gives its fields |
| HuaweiCalls.RecordsRoundTrip | api/internal/router/huawei_adapter.go:277-306 | extracting, splitting and decoding a printed page of records returns every field of every record |
| HuaweiWan.CounterRoundTrip | api/internal/router/huawei_adapter.go:355-358 | a printed counter is read back if it fits 64 bits and refused otherwise |
| HuaweiWan.WanPageRead | api/internal/router/huawei_adapter.go:315-345 | from the text of a page mixing `WanEthStats` and `WaninfoStats` records in any order, exactly the received and sent bytes of every record are read, each kind from its own columns |
| HuaweiWan.BadRecordSkipped | api/internal/router/huawei_adapter.go:330-340 | a record with too few columns or a counter that is no number is passed over |
| HuaweiWan.AddRecords | api/internal/router/huawei_adapter.go:324-348 | the checked additions succeed exactly when the mathematical totals fit, and then are those totals |
| HuaweiWan.ParseHuaweiWANStats | api/internal/router/huawei_adapter.go:308-353 | succeeds exactly when some record is valid and both totals fit in 64 bits, and returns them; each error has its exact cause |
| HuaweiWan.SumsOfPermutation | api/internal/router/huawei_adapter.go:324-348 | totals, count and overflow do not depend on the order of the valid records |
| HuaweiWan.OrderDoesNotMatter | api/internal/router/huawei_adapter.go:308-353 | two pages with the same calls in any order agree on everything the parser's result depends on |
| HuaweiDevices.ParseMACExact | api/internal/router/huawei_adapter.go:641-648 | exactly 6, 8 or 20 bytes in pairs with colons or dashes or in fours with dots are an address, in either case |
| HuaweiDevices.ChosenExact | api/internal/router/huawei_adapter.go:640-653 | the address comes from the real MAC field when that parses and the MAC field otherwise, and is accepted exactly when twelve hex digits are left without separators |
| HuaweiDevices.ChosenIsCanonical | api/internal/router/huawei_adapter.go:640-653 | whatever the two address fields hold, an accepted address is six bytes in lower case with colons |
| HuaweiDevices.CanonicalIsKept | api/internal/router/huawei_adapter.go:640-653 | a canonical address is kept as it is, from either field |
| HuaweiDevices.DeduplicatedExact | api/internal/router/huawei_adapter.go:654-657 | addresses come out distinct, none is lost, and the entry kept is the first in scan order |
| HuaweiDevices.AddDevices | api/internal/router/huawei_adapter.go:624-665 | the loop with its `seen` map keeps the first valid device of each address |
| HuaweiDevices.ParseHuaweiUserDevices | api/internal/router/huawei_adapter.go:601-670 | the result is the deduplicated valid records, distinct and canonical; it fails exactly on an unrecognised page or one whose records are all invalid |
| HuaweiDevices.OnlineWords | api/internal/router/huawei_adapter.go:661-662 | four words mean online, in any case |
| HuaweiDevices.LowersLetters | api/internal/router/huawei_adapter.go:661 | letters are lowered and no other ASCII character changes |
| HuaweiDevices.ColumnsMean | api/internal/router/huawei_adapter.go:606-668 | every column of both kinds of records has its meaning: names, addresses with invalid ones dropped, network, connection, status |
| HuaweiDevices.DevicePageRead | api/internal/router/huawei_adapter.go:601-670 | from the text of a page mixing both kinds of records, exactly the devices they mean are read |
| HuaweiDevices.PageRoundTrip | api/internal/router/huawei_adapter.go:601-670 | a printed LAN page of devices with distinct canonical addresses is read back as exactly those devices |
| Streaks.StreaksExact | api/internal/store/devices.go:178-194 | the maximal runs of true, each listed once in order, are as many as the rising edges |
| Streaks.TrailingStreak | api/internal/collector/collector.go:118-125 | the trailing count is the length of the run that reaches the end |
| Snapshots.Store.RecordDevices | api/internal/store/devices.go:211-261 | the marking and the loop of upserts compute `Recorded` of the old tables |
| Snapshots.SnapshotExact | api/internal/store/devices.go:211-261 | every device row has its reading at the instant, online only if its last entry is; readings at other instants are untouched |
| Snapshots.SnapshotRows | api/internal/store/devices.go:226-239 | listed rows are seen now and revived, each field holds its last non-empty value, first sightings stay, unlisted rows do not change, and every listed address has a row |
| Snapshots.SnapshotAddresses | api/internal/store/devices.go:240-248 | every non-empty address listed for a device has a row last seen now, with its first sighting kept or made now; all other addresses stay as they were |
| Presence.InvStep | api/internal/store/devices.go:143-261 | snapshots in order of time, archiving, restoring, deleting and pruning keep the newest snapshot readable or leave no readings at all |
| Presence.ActiveDevicesExact | api/internal/store/usage.go:90-101 | over any run, the active devices are the surviving devices online in the newest snapshot while it is not pruned, and none afterwards |
| Presence.DeletionTakesReadings | api/migrations/00001_initial.sql:33 | deleting an archived device takes exactly its own readings along |
| Presence.SamplesExact | api/internal/store/devices.go:177-185 | the samples of a window are exactly the stored readings of the device within it, each with its stored state, in increasing order |
| Presence.RowsTallyTheirDay | api/internal/store/devices.go:186-194 | each day's row holds exactly that day's samples, online samples and session starts |
| Presence.RowsSpanTheirDay | api/internal/store/devices.go:187-190 | a row's first and last times are the first and last samples of its day |
| Presence.DaysRunFromMidnight | api/internal/store/devices.go:188 | a day runs from one local midnight to the next |
| Presence.SessionsAreMaximalRuns | api/internal/store/devices.go:175-210 | over all days, sessions are the maximal online runs, a run across midnight once; per day sessions, online samples and samples nest, and no sample is lost |
| Collector.CollectError | api/internal/collector/collector.go:137-155 | a poll succeeds exactly when counters, ledger and device steps do, an adapter without a device list included; every error has a text |
| Collector.FirstFailureIsReported | api/internal/collector/collector.go:137-155 | a failed poll reports the text of the first step that failed |
| Collector.Collector.RecordResult | api/internal/collector/collector.go:114-135 | the new health record; an event only for the first failure of a streak |
| Collector.Collector.RunCollection | api/internal/collector/collector.go:101-112 | the health record after a poll and the delay before the next |
| Collector.DelayBounds | api/internal/collector/collector.go:107-111 | along a streak the delay never shrinks and stays between 5 s and the smaller of the interval and 320 s |
| Collector.DelayTable | api/internal/collector/collector.go:107-111 | the delays are 5, 10, 20, 40, 80, 160 and then 320 s, never more than the interval |
| Collector.HealthOverRuns | api/internal/collector/collector.go:114-135 | over any run the failure counter is the length of the failure streak reaching the present, and one event was attempted per maximal streak |
| Collector.StatusOverRuns | api/internal/collector/collector.go:114-135 | over any run the record shows the latest attempt, the latest success, the error of a failed latest attempt, and one event with the first error of each streak |
| DashboardSessions.Store.CreateUser | api/internal/store/auth.go:24-39 | a new enabled account at version 1, or nothing if the name is taken |
| DashboardSessions.Store.DisableUser | api/internal/store/auth.go:67-81 | disables the account and raises its version |
| DashboardSessions.Store.ResetUserPassword | api/internal/store/auth.go:83-101 | replaces the password and raises the version |
| DashboardSessions.Store.AuthenticateUser | api/internal/store/auth.go:103-122 | succeeds exactly for an enabled account with its password, and what it returns would be accepted at that moment |
| DashboardSessions.Store.UserAuthVersion | api/internal/store/auth.go:124-138 | the version of an enabled account |
| DashboardSessions.Authenticator.Login | api/internal/httpapi/auth.go:67-98 | stores a session under the token exactly on valid credentials |
| DashboardSessions.Authenticator.Logout | api/internal/httpapi/auth.go:105-116 | drops the session of the cookie only, and refuses without a valid CSRF token |
| DashboardSessions.Authenticator.SessionUser | api/internal/httpapi/auth.go:150-176 | names a user exactly for a stored session that the account still accepts, and drops a stale one |
| DashboardSessions.AcceptedIff | api/internal/store/auth.go:124-138 | a session is accepted exactly when its account was neither reset nor disabled since its credentials were read |
| DashboardSessions.InvStep | api/internal/httpapi/auth.go:67-98 | the separate read and write steps of logins and checks, resets and disabling in any order keep every session's version in step with the revocations |
| DashboardSessions.RevocationIsFinal | api/internal/httpapi/auth.go:150-176 | under every interleaving, whatever was accepted was unrevoked at that step, and sessions stored or in flight are valid exactly while unrevoked |
| DashboardSessions.RejectedForever | api/internal/httpapi/auth.go:167-173 | a revoked session, stored or in flight, is rejected by every later check |
| DashboardSessions.DisabledForever | api/internal/store/auth.go:67-81 | once an existing account is disabled no password logs in to it ever again |
| DashboardSessions.OnlyTheNewPassword | api/internal/store/auth.go:83-101 | after a reset of an enabled account exactly the new password logs in, until the next reset or disabling |
| DashboardSessions.OnlyTheFirstPassword | api/internal/store/auth.go:24-39 | a new account is open to exactly its first password until then |
| LoginThrottle.Throttle.LoginLimited | api/internal/httpapi/auth.go:178-184 | limited exactly at five live failures |
| LoginThrottle.Throttle.RecordLoginFailure | api/internal/httpapi/auth.go:186-193 | one more live failure and a full window |
| LoginThrottle.Throttle.ClearLoginFailures | api/internal/httpapi/auth.go:195-197 | no key is left |
| LoginThrottle.Throttle.Login | api/internal/httpapi/auth.go:56-83 | refused exactly at five live failures; otherwise a right password clears the key and a wrong one counts and renews the window |
| LoginThrottle.OutcomesMean | api/internal/httpapi/auth.go:57-83 | over any history an attempt not refused succeeds exactly with the right password |
| LoginThrottle.AtMostFiveFailures | api/internal/httpapi/auth.go:24-25 | in any span shorter than 15 minutes without a success, at most five password checks fail |
| LoginThrottle.KeyExpiry | api/internal/httpapi/auth.go:186-193 | a live key expires 15 minutes after the last counted failure, which only refused attempts follow |
| LoginThrottle.AdmittedAgain | api/internal/httpapi/auth.go:178-193 | an attempt is refused exactly when the history holds five counted failures since the last success or expiry, the last of them less than 15 minutes ago |

## Left out

- HTTP, TLS, the cookie jar, JSON, CSV, the comparison of CSRF tokens, logging, signals and timers: input and output around the modelled logic.
- The SQL engine, row locks and isolation levels: every transaction is one atomic step, so the race of a queueing and a completing transaction is not modelled.
- Several live workers: the worker holds an advisory lock (`api/cmd/worker/main.go:42-50`), and the lock itself is not part of the model.
- BlockProtocol.BlockingIsSafe: the equivalence of blocked and succeeded assumes non-empty error texts, which is exactly when a completion is honest.
- Tiling.TilingExact: readings lie after Go's zero time, which the program treats as an unset time; pruning is treated by the lemmas that follow it.
- TrueTraffic.BooksBalance: readings come from one source with a clock that does not run backwards; a poll sees all records at one instant, although the adapter fetches several pages, and each at most once, although a record printed on two of the joined pages would be added twice.
- Ledger.Store.PruneRawData: the device readings that the same transaction deletes are in `Snapshots.Pruned`, not in this store.
- Rounding of timestamps to microseconds by the database, and overflow of 64-bit sums over many intervals.
- Floating point: the projection and the exhaustion instant are exact rationals rounded down; percentages are not modelled. Daylight-saving zones: an offset is fixed.
- Go strings are sequences of characters here, not UTF-8 bytes, and `net.ParseIP` is a parameter of the device parser.
- HuaweiSession.HuaweiAdapter.TryLogin: page texts are reduced to the markers the adapter looks for, as inputs; host names, forms, cookies and tokens are not modelled.
- HuaweiSession.OperationAnswers: which of its two works an operation runs is exact; what the pages say beyond being in order, refusing or parsing is in the parser modules.
- A general regular-expression engine: call extraction is written for the four call patterns, and the escape pattern as a recogniser.
- bcrypt, SHA-256 and random tokens: a hash matches exactly the password it was made from, keys are the hashed values themselves, and tokens and request numbers are arbitrary.
- Expiry of sessions in Redis is the same event as a logout; failures of Redis and PostgreSQL in the handlers are not modelled, except a refused completion, which is a crash of the worker.
- LoginThrottle.AtMostFiveFailures: attempts on one key are serialised; concurrent ones could be admitted together.
- Collection requests, device listing and metadata, worker-status rows, plan storage and alert thresholds, discovery of router pages, configuration, the user command line and the `web/` tree: easy or environmental.
