# BastionDeck: a model of its core, with proofs

BastionDeck is a fleet SSH control plane. This project models the parts of it that
carry state or protocol, and proves what they keep and what they return:

| file | part |
|---|---|
| `Calendar.dfy`, `CronField.dfy`, `Cron.dfy`, `CronSearch.dfy`, `Horizon.dfy`, `CronText.dfy` | the cron parser and its next-fire search, over a Gregorian calendar |
| `StateMachine.dfy`, `Engine.dfy`, `EngineInvariant.dfy`, `EngineResults.dfy`, `EngineCancel.dfy`, `EngineProgress.dfy`, `JobEngine.dfy` | target statuses, the run aggregate, and the job engine as a concurrent protocol |
| `Scheduler.dfy` | the scheduler's tick, over any number of ticks |
| `Audit.dfy`, `Paging.dfy` | the audit hash chain, and cursor pagination |
| `Hosts.dfy`, `Dialer.dfy`, `Pool.dfy` | the jump-host graph, dialling through it, and the pool of clients |
| `Limiter.dfy` | the login rate limiter |
| `Capture.dfy` | output capture and reading it back |
| `Snippets.dfy` | command templates, on the server and in the web client |
| `Text.dfy`, `Sets.dfy` | the string and integer functions of Go that the others use, and a fact about finite sets |

A part that changes state is a class whose methods state their whole new state, either
outright or through a function on values; that function is then reasoned about by lemmas.
The concurrent parts (job engine, pool, logins) are state machines of atomic steps, with
one method for each step, and their main results hold for every interleaving.

## How the parts are represented

- Instants are integers in UTC: minutes since 1 January of year 1 for the calendar, nanoseconds for the scheduler, milliseconds for the limiter.
- A cron bitset is the set of the bits that are one. The loop counter that fills it is a 64-bit integer that wraps.
- Each database transaction, and each section of code under one lock, is one step. A write under a cancelled context is refused.
- The audit hash is any function of the hashed fields. Where a result needs it, the hypothesis is that no other payload has the hash of a row of the log in question, and that no hash is the empty string (`Audit.Ideal`). The log in question must hold valid JSON details, as every row `Write` stores does: `canonicalPayload` ignores the marshaller's error (`internal/audit/audit.go:59`), so all rows with an invalid detail hash alike. The rows compared with that log, an editor's say, may hold anything.
- A timer of the pool fires at its deadline or at any time after, and the eviction it starts runs at any time after that. Results about when a client is evicted take a bound on that lateness, 0 for punctual timers, as a hypothesis (`ClientPool.Late`).
- The network is a function that tells what dialling each host meets; a connector call ends with any status at all.
- Fresh identifiers are parameters, required to be unused.

## Where the code differs from what is said about it

Each of these is a proved statement, with its exact condition and an input or run that shows it.

- A part `n/step` runs from the low bound of its field: the value of n is not used, so an n outside the field is accepted too. It sets the progression from n exactly when n is the low bound (`CronField.StepFromLow`, with the texts `5/15` and `99/15` in `CronField.FifteenFromLow`).
- A step so large that the counter overflows sets other values than its progression: exactly when the start is at least 2(2^63 - step) (`CronField.VisitsProgression`, with the text `6-12/9223372036854775807` in `CronField.OverflowingMonths`).
- The next-fire search gives the zero time for some instants, exactly when no day named by the expression exists in every year (`Horizon.AlwaysFires`, with the text `0 0 29 2 *` in `CronText.LeapDayText`). The scheduler then starts the job at every tick (`Scheduler.ZeroTimeFiresEveryTick`, `Scheduler.NoDoubleFire`).
- `README.md:18` and `web/src/lib/runmath.ts` rank cancelled highest; the server does not (`StateMachine.CancelledIsNotHighest`). `StateMachine.ClientAggregate` says exactly when the two agree.
- `docs/03-api-contract.md:79` says cancelling makes every unfinished target cancelled. A row becomes cancelled exactly when it is still pending as the loop of CancelRun reaches it; one that is running then stays running until the next reconciliation (`EngineCancel.CancelledRow`, with a run in `EngineResults.CancelledRunKeepsRunningRow`). An executing target's result reaches its row exactly when no cancel came while the run was live (`EngineCancel.FinishRecords`). A cancel reaches the context exactly when the run is live, so one that comes before the run is registered stops nothing (`EngineCancel.ContextCancelledExactly`, with a run in `EngineResults.CancelBeforeRegister`).
- A run whose targets had all finished, but whose own row was not yet written at a crash, stays open. A boot leaves a run closed exactly when it was closed before or some row of it was open or lost then (`EngineResults.ClosedAfterBoot`, with a run in `EngineResults.CrashLeavesRunOpen`).
- `internal/audit/audit.go:1-3` says any deletion or edit is detected. Removing rows is undetected exactly when they are the end of the log (`Audit.DeletionDetected`, with a log in `Audit.TailCut`). Rewriting rows with the last hash kept is undetected exactly when each row hashes the same fields (`Audit.RewriteDetected`): the address may change, and a stored detail `{}` may become empty (both edits in `Audit.EditUnnoticed`).
- `internal/sshlite/dialer.go:1-3` says chains have at most five hosts. An update in the middle of a chain bounds its own chain only (`Hosts.UpdateDeepens`); sequential changes make chains of every length (`Hosts.AnyLength`), and the dialler then refuses the host at their start (`Dialer.DeepChainRefused`). Two updates that both check before either writes break the forest exactly when each checked chain passes through the other host (`Hosts.ConcurrentUpdates`, with two hosts in `Hosts.ConcurrentUpdatesCycle`).
- A failed dial leaves new clients open exactly when two hops had come up below the one that failed (`Dialer.FailureLeaks`, with three hosts in `Dialer.ThirdHopFails`), and a client closed after its dial leaves those of its jump hosts open, so nothing is left exactly when it has none (`Dialer.Dialer.ConnectAndClose`).
- The pool sets a client's timer at its insert and never again: its own timer takes it at insert time plus idle time, later only by as much as the timer is late, whatever use was made of it. With punctual timers it is taken within the idle time of a use exactly when that use came later than the insert (`ClientPool.EvictedOnTime`, `ClientPool.EvictedInUse`, with a run in `ClientPool.UsedAtDeadline`).
- A Connect can return a client that is dropped or closed already. `ClientPool.ReturnedStale` says exactly when, and `ClientPool.DroppedReturned` gives a run.
- The limiter checks and records in separate steps, so K logins in flight at once can bring the failures stored for a window to 9 + K, and no further (`LoginLimiter.WindowBound`, `LoginLimiter.WindowBoundReached`). The failures recorded in a window keep that bound when no success in it comes after one of them with its user or address (`LoginLimiter.RecordedBound`). Otherwise there is no bound, even with one login at a time, as a success deletes the failures of other users from its address (`LoginLimiter.MissAndWipe`).
- A rendered template can hold a fresh placeholder: exactly when, in the text between two kept placeholders, a dollar sign of the body's text or of a value starts one (`Snippets.FreshExactly`, with a body in `Snippets.FreshPlaceholder`), so never when there is no such dollar sign (`Snippets.DollarFreeIsSafe`).
- Server and client divide a body alike, and render it alike whatever non-empty values are given, exactly when no placeholder is padded with a space only the client's engine knows (`Snippets.ScansAgree`, `Snippets.TwinsAlwaysAgree`, with a body in `Snippets.UnplainBody`).

## Model

| member | source | states |
|---|---|---|
| CronField.ReadPartIsGrammar | internal/schedule/cron.go:51-87 | the scan of one comma part accepts exactly the texts of the grammar (star, range or value, with an optional step), with the grammar's start, end and step; a part has at most one meaning |
| CronField.ScanPart | internal/schedule/cron.go:52-87 | the branches and error returns of the loop body compute that reading |
| CronField.SetRange | internal/schedule/cron.go:88-90 | the loop over a 64-bit counter that may wrap ends, and adds exactly the values the counter visits |
| CronField.WalkVisits | internal/schedule/cron.go:88-90 | those values are the arithmetic progression of the part or, when the step overflows, a descent below its start |
| CronField.VisitsProgression | internal/schedule/cron.go:88-90 | a part sets its arithmetic progression and nothing else if and only if its step does not overflow |
| CronField.VisitsInField | internal/schedule/cron.go:85-90 | exactly when the values a part sets all lie within the field's bounds |
| CronField.StepFromLow | internal/schedule/cron.go:74-90 | a part `n/step` means the field's low bound, high bound and step, whatever the integer n; for n in the field it sets the progression from n if and only if n is the low bound and no step overflows, which none does in a field starting at 0 or 1 |
| CronField.FifteenFromLow | internal/schedule/cron.go:74-90 | the minute parts `5/15` and `99/15` are both accepted, and both set 0, 15, 30 and 45 and nothing else |
| CronField.OverflowingMonths | internal/schedule/cron.go:54-90 | the month part `6-12/9223372036854775807` is accepted and its step overflows: it sets months 4 and 2, which are not in its progression, and bit 0, which is not a month |
| CronField.ParseField | internal/schedule/cron.go:49-93 | a field is accepted if and only if every part is well formed and in range; its bitset is the union of what the parts set and is never empty |
| CronField.PrintedFieldReadsBack | internal/schedule/cron.go:49-93 | any non-empty list of in-range values, printed with commas, is accepted and parses back to the set of those values |
| CronField.PrintedRange | internal/schedule/cron.go:52-87 | a printed range with a step is accepted if and only if it lies in the field, is not empty and has a positive step, and means just that range and step |
| Text.FieldsWord | internal/schedule/cron.go:32 | white space of any kind and length separates the fields, and none of it is left |
| Text.AtoiSigned | internal/schedule/cron.go:56-75 | a number with or without a sign is read as its value, and refused exactly outside 64 bits |
| Cron.Parse | internal/schedule/cron.go:31-47 | a string parses if and only if it has five accepted fields; each word holds what its own field sets, within the bounds of that field |
| Cron.PrintedParses | internal/schedule/cron.go:31-47 | five printed lists joined by spaces parse if and only if they lie in 0-59, 0-23, 1-31, 1-12 and 0-6 |
| Cron.PrintedExprReadsBack | internal/schedule/cron.go:31-47 | and then each to its own values |
| Cron.DayRule | internal/schedule/cron.go:107-118 | the day rule with stars decided by set equality: both day fields must allow the day, unless both are restricted, when either may |
| Calendar.YearOf | internal/schedule/cron.go:101-126 | the year of a day number, found by estimate, is the one whose days enclose it |
| Calendar.ClosedForm | internal/schedule/cron.go:101-139 | counting year by year agrees with the Gregorian closed form |
| Calendar.CivilRoundTrip | internal/schedule/cron.go:103-139 | splitting a day number into year, month and day inverts joining a valid date |
| Calendar.MinuteRoundTrip | internal/schedule/cron.go:120-126 | a minute number rebuilt from its calendar fields is itself |
| Calendar.FourYears | internal/schedule/cron.go:100-101 | the four-year limit lies 1460 or 1461 days ahead, also from 29 February |
| Calendar.FourYearsLater | internal/schedule/cron.go:100-101 | it is the same date and time, 29 February carried into 1 March where the year has none |
| Calendar.Epoch | internal/schedule/cron.go:107-108 | 1 January 1970 is day 719162 and a Thursday, and the weekdays follow each other from there |
| Calendar.MonthTable | internal/schedule/cron.go:103-139 | the twelve months start 0, 31, 59, 90, 120, 151, 181, 212, 243, 273, 304 and 334 days into the year, one later after February of a leap year |
| CronSearch.AllBits | internal/schedule/cron.go:142-148 | the bit loop builds the set of all values from lo to hi |
| CronSearch.DayAllows | internal/schedule/cron.go:107-118 | the day branches compute the day rule |
| CronSearch.NextAfter | internal/schedule/cron.go:96-136 | for every expression and instant the skipping search returns the least matching minute after it and before the limit, in nanoseconds, or the zero time when there is none, as the minute-by-minute search does; with non-empty in-range hours and minutes it makes at most 1632 jumps |
| CronSearch.NextFireIsLeast | internal/schedule/cron.go:95-136 | the result is the least matching minute strictly after t and before the four-year limit, and the zero time exactly when there is none |
| CronSearch.LimitIs | internal/schedule/cron.go:97-101 | the search starts at the first minute strictly after t, and its limit is that date and time four years later |
| CronSearch.FirstOfNextMonthIs | internal/schedule/cron.go:138-140 | the month jump lands on midnight of the first day of the next month, December included, and later than the day it left |
| CronSearch.NextDayIs | internal/schedule/cron.go:119-123 | the day jump lands on the next midnight |
| Horizon.ParsedHasParsedWords | internal/schedule/cron.go:31-47 | what Parse returns has non-empty in-range minutes, hours and weekdays and some real month, so the jump bound applies to it, whatever a step overflows to |
| Horizon.AlwaysFires | internal/schedule/cron.go:100-135 | a parsed expression has a next fire from every instant if and only if it names a day that exists in every year |
| Horizon.NothingUntil2100 | internal/schedule/cron.go:100-135 | an expression naming no day of a common year matches nothing from March 2096 to the end of February 2100 |
| CronText.LeapDayText | internal/schedule/cron.go:31-47 | the text `0 0 29 2 *` parses, to an expression that does not fire every year |
| StateMachine.Edges | internal/jobs/statemachine.go:4-29 | pending is followed by running, cancelled, skipped and lost, running by success, failed, timeout, cancelled and lost, and no other status by any |
| StateMachine.TerminalIsFinal | internal/jobs/statemachine.go:4-32 | a status is terminal if and only if no transition leaves it, which is all but pending and running, and any other can still be cancelled or lost |
| StateMachine.Aggregate | internal/jobs/statemachine.go:38-85 | the counters and the switch give running if some target is open, else the first of timeout, failed, lost and cancelled that some target has, else success: the highest level of success, cancelled, lost, failed, timeout, running |
| StateMachine.RunStatusConcat | internal/jobs/statemachine.go:34-85 | aggregating a concatenation is joining the two aggregates in that order |
| StateMachine.RunStatusOfSet | internal/jobs/statemachine.go:34-85 | the aggregate depends only on the set of statuses: neither order nor repetition matters |
| StateMachine.TopLevelIsMaximum | internal/jobs/statemachine.go:34-85 | the level is an upper bound of the targets' levels, and the least |
| StateMachine.RunningWhileOpen | internal/jobs/statemachine.go:67-69 | the aggregate is terminal if and only if every target is |
| StateMachine.Summarise | internal/jobs/statemachine.go:88-111 | the counting loop puts in each of the eight fields the number of positions that hold its status |
| StateMachine.CountsPartition | internal/jobs/statemachine.go:88-111 | the eight counts sum to the total |
| StateMachine.CountsConcat | internal/jobs/statemachine.go:88-111 | counting is additive over concatenation |
| StateMachine.ClientAggregate | web/src/lib/runmath.ts:7-27 | the browser shows the first of cancelled, timeout, failed, lost, running, pending and skipped that some target has, and equals the server exactly on the lists that ClientAgrees describes |
| StateMachine.CancelledIsNotHighest | README.md:18 | a run's status is cancelled if and only if some target was cancelled and every other succeeded, was skipped or was cancelled too |
| Engine.StepIsLawful | internal/jobs/statemachine.go:4-18 | every step of the protocol changes a stored status only along an edge, deletes no row and moves none to another run |
| Engine.TerminalForever | internal/jobs/engine.go:220-352 | over every interleaving of starts, slots, results, cancels, crashes and reconciliations, a row stays for ever and a terminal row never changes |
| EngineInvariant.StepInv | internal/jobs/engine.go:140-352 | every step keeps the links between runs and rows, the semaphore bound, and the agreement of memory and tables for undisturbed runs |
| EngineInvariant.ReachableInv | internal/jobs/engine.go:140-352 | the invariant holds in every reachable state |
| EngineInvariant.FinishRunStep | internal/jobs/engine.go:172-175 | when the goroutines of an undisturbed run have returned, what is stored is the aggregate and the counts of its rows, all of them terminal |
| EngineResults.EveryReachableState | internal/jobs/engine.go:140-218 | at most as many targets as the concurrency are inside runOne, from taking a slot until its return; an undisturbed run's rows show its goroutines while it is live and, once it is ended, its row holds the aggregate and counts of closed rows |
| EngineResults.LimitIsGiven | internal/jobs/engine.go:82-84 | over every run of the system, a live run's semaphore has the concurrency given at its insert |
| EngineResults.AfterBoot | internal/jobs/engine.go:298-352 | after a boot no target is open, terminal rows are untouched and open ones lost; every run owning a lost row is ended with the aggregate of its rows, and the others are untouched |
| EngineResults.ClosedAfterBoot | internal/jobs/engine.go:324-350 | a boot leaves a run closed if and only if, before it, the run was closed or some row of it was open or lost |
| EngineResults.SecondReconcile | internal/jobs/engine.go:298-352 | reconciling again marks nothing and changes no row of either table |
| EngineCancel.CancelledRow | internal/jobs/engine.go:272-294 | after CancelRun of a registered run, and up to the next reconciliation, a row its loop reaches is closed if and only if it was not running at that moment; a pending one becomes cancelled, a running one stays running |
| EngineCancel.CancelStops | internal/jobs/engine.go:275-280 | a cancel stops all result writes of the run if and only if the run is not between its insert and its registration |
| EngineCancel.ContextCancelledExactly | internal/jobs/engine.go:113-124 | over every run of the system, a live run's context is cancelled if and only if some cancel came while it was live |
| EngineCancel.FinishRecords | internal/jobs/engine.go:239-256 | over every run of the system, an executing target's result is in its row at every later moment up to the next reconciliation if and only if it is success, failed, timeout, cancelled or lost and no cancel came while the run was live |
| EngineProgress.NextOwn | internal/jobs/engine.go:147-175 | a live run always has an enabled step of its own that brings it closer to its end, whatever its connectors return: the semaphore cannot deadlock |
| EngineProgress.NeverStuck | internal/jobs/engine.go:140-177 | from every reachable state a live run can end by its own steps alone |
| EngineResults.CancelledRunKeepsRunningRow | internal/jobs/engine.go:239-256 | a reachable state with a run ended as cancelled while its row is still running |
| EngineResults.CrashLeavesRunOpen | internal/jobs/engine.go:324-326 | a reachable state after a boot with no open target and a run still running |
| EngineResults.CancelBeforeRegister | internal/jobs/engine.go:113-124 | a reachable state where a run cancelled before its registration ended as a success |
| JobEngine.JobEngine.StartRun | internal/jobs/engine.go:69-115 | an empty target list or command is refused without a change; otherwise the run and its pending rows are stored together, with a concurrency of 5 where none was given |
| JobEngine.JobEngine.TransitionTarget | internal/jobs/repo.go:201-224 | the guarded write moves a pending row to running, cancelled, skipped or lost and a running one to success, failed, timeout, cancelled or lost, and changes nothing else, whatever status was expected |
| JobEngine.JobEngine.PersistResult | internal/jobs/engine.go:239-256 | a running row takes success, failed, timeout, cancelled and lost and no other result, and none under a cancelled context; a terminal row takes none |
| JobEngine.JobEngine.EndRun | internal/jobs/engine.go:172-175 | the run's row takes the aggregate of the returned statuses and the count of each of them, and the run is no longer live |
| JobEngine.JobEngine.MarkOrphans | internal/jobs/engine.go:305-323 | the loop marks lost exactly the open rows of runs that are not live, and returns their number |
| JobEngine.JobEngine.RecomputeRuns | internal/jobs/engine.go:324-350 | the loop stores the aggregate of its rows for exactly those runs that own a lost row and have a terminal aggregate |
| JobEngine.JobEngine.Reconcile | internal/jobs/engine.go:298-352 | both loops together, with the count of rows marked |
| JobEngine.JobEngine.BootUp | cmd/bastiondeck/main.go:108-131 | with nothing live, the count is the number of open targets and the state is the one AfterBoot describes |
| CronText.ParseUnique | internal/schedule/cron.go:31-47 | a string parses to at most one expression |
| CronText.ExprExactly | internal/jobs/scheduler.go:45-48 | a job has an expression to run by if and only if its text is in the grammar |
| CronText.PrintedMatches | internal/schedule/cron.go:31-134 | from text to minutes: five printed lists fire at a minute if and only if its minute, hour and month are listed and its day is, in both day lists when one of them is full and otherwise in either |
| Scheduler.Scheduler.TickRow | internal/jobs/scheduler.go:41-76 | one job's pass: a run is started if and only if the job is enabled, scheduled, due, in the grammar, and has targets and a command; a due job is advanced first, an unseeded one only seeded, and nothing else of a job changes |
| Scheduler.Scheduler.Tick | internal/jobs/scheduler.go:36-79 | every stored job is advanced once, and the ids returned are those of the runs started for the startable due jobs, in listing order |
| Scheduler.Scheduler.RecomputeNext | internal/jobs/scheduler.go:26-33 | a bad expression changes nothing; a good one clears the last run and seeds the next |
| Scheduler.TickStep | internal/jobs/scheduler.go:49-76 | a tick starts an armed job if and only if a matching minute has come since it was armed, and leaves it armed for a time later than now |
| Scheduler.StartsExactly | internal/jobs/scheduler.go:11-79 | over any ticks with non-decreasing times, a job starts at a tick if and only if a matching minute has come since the tick before: missed minutes collapse into one start and none is lost |
| Scheduler.FirstTickSeeds | internal/jobs/scheduler.go:50-54 | the first tick of an unseeded job arms it without starting it |
| Scheduler.NoDoubleFire | internal/jobs/scheduler.go:11-13 | a job just ticked is never started again at the same instant, at any instant, if and only if its expression fires every year |
| Scheduler.ZeroTimeFiresEveryTick | internal/jobs/scheduler.go:55-58 | once the search gave the zero time, every later tick finds the job due |
| Audit.Log.Write | internal/audit/audit.go:66-112 | the new row has every field given, an absent detail as an empty object, the last hash and its own hash; an intact log stays intact; the sequence number returned is the row's id exactly while no row was deleted from the end |
| Audit.SameFields | internal/audit/audit.go:50-61 | two rows hash alike if and only if they agree on the hash, the nine text fields that enter it, and the detail, absent or an empty object being the same |
| Audit.Verify | internal/audit/audit.go:203-233 | passes if and only if the log is intact; otherwise names the first row that does not follow its predecessor, the rows before it being intact, and which of the two checks failed |
| Audit.LastHashDetermines | internal/audit/audit.go:203-233 | two intact logs with the same last hash have the same length and agree, row by row, on every field but id, address and an absent or empty detail |
| Audit.PositionsDiffer | internal/audit/audit.go:203-233 | no two positions of an intact log end with the same hash |
| Audit.DeletionDetected | internal/audit/audit.go:203-233 | deleting rows from an intact log passes if and only if they form a suffix; otherwise the break is at the first kept row whose direct predecessor was removed, by its stored previous hash |
| Audit.TailCut | internal/audit/audit.go:203-233 | a log made by two writes, with its last row cut, passes |
| Audit.RewriteDetected | internal/audit/audit.go:50-61 | rewriting rows with the last hash kept passes if and only if no field but id, address and an absent or empty detail changed |
| Audit.EditUnnoticed | internal/audit/audit.go:50-61 | a row given another address, or whose stored empty detail is emptied, passes |
| Paging.Page | internal/audit/audit.go:129-187 | one page is the first rows of the query, newest first, as many as a limit from 1 to the ceiling or else 50; its cursor is the id of the first row not returned, 0 when there is none |
| Paging.ListPage | internal/audit/audit.go:129-187 | the same with a ceiling of 200 |
| Paging.ListRuns | internal/jobs/repo.go:289-328 | the same with a ceiling of 100 and no filter |
| Paging.QueryMember | internal/audit/audit.go:133-165 | a row is in the query exactly when it is in the table, matches the filter and is within the cursor |
| Paging.WalkIsQuery | internal/jobs/repo.go:289-328 | whatever is appended between pages, following the cursors to the end returns the query of the first page, and ends exactly after as many pages as that list needs |
| Paging.FullWalk | internal/audit/audit.go:128-187 | from the start to the end, every matching row that existed at the first page is returned exactly once, newest first, and nothing else is |
| Hosts.Repo.CheckJumpChain | internal/inventory/repo.go:263-290 | accepts if and only if the chain exists, avoids the skipped hosts and has at most five hosts; otherwise says what it met: a cycle, a sixth host or a missing one |
| Hosts.Repo.Create | internal/inventory/repo.go:68-102 | the table gains the host, with every field given and the default kind of authentication, exactly when its jump chain is acceptable and its fields are valid; otherwise the first invalid field is named, in the source's order |
| Hosts.Repo.Update | internal/inventory/repo.go:105-138 | the host is replaced, field by field as given, exactly when it exists, its fields are valid and its jump chain is acceptable without it; a host is never its own jump host |
| Hosts.Repo.Delete | internal/inventory/repo.go:196-214 | the host is removed unless another jumps through it, and a missing one is an error |
| Hosts.ChainDistinct | internal/inventory/repo.go:261-290 | a chain that ends never visits a host twice |
| Hosts.ReachableRooted | internal/inventory/repo.go:68-214 | after any sequence of creates, updates and deletes, following jump links from every host ends at a root, and no link dangles |
| Hosts.UpdatedChain | internal/inventory/repo.go:105-138 | after an update, a chain through the changed host keeps its part up to that host and goes on along the new jump host's chain |
| Hosts.UpdateDeepens | internal/inventory/repo.go:113-121 | a host k links above the updated one is left with the new chain and k more hosts, so only the updated host's own chain is bounded |
| Hosts.ConcurrentUpdates | internal/inventory/repo.go:105-138 | two updates, each allowed on its own, that both check before either writes leave a forest if and only if not each checked chain passes through the other host |
| Hosts.ConcurrentUpdatesCycle | internal/inventory/repo.go:105-138 | two roots, each made to jump through the other, close a cycle |
| Hosts.AnyLength | internal/inventory/repo.go:105-138 | sequential creates and updates make chains of every length |
| Hosts.ChainBounded | internal/inventory/repo.go:263-290 | a chain is no longer than the table |
| Dialer.Dialer.DialRec | internal/sshlite/dialer.go:61-136 | ends on every table, a cyclic one too; a ready chain within the depth limit is dialled from its root up to the first failing hop, else nothing is dialled and the reason is the first obstacle met; a failed hop closes the client just below it and no other |
| Dialer.Dialer.Connect | internal/sshlite/dialer.go:41-51 | a missing host is an error; at most six clients are made; with nothing failing, it connects if and only if checkJumpChain would accept the host's jump host |
| Dialer.Dialer.ConnectAndClose | internal/sshlite/pool.go:50-60 | a client closed after its dial leaves open exactly the clients of its jump hosts, so nothing is left open if and only if the host has none |
| Dialer.ConnectsExactly | internal/sshlite/dialer.go:61-136 | a dial connects if and only if the host has a chain of at most six hosts, each not agent-backed, with its credential, and coming up |
| Dialer.CheckAndDialAgree | internal/inventory/repo.go:263-290 | a host's chain fits the dialler's limit if and only if its jump host passes the inventory's check with the host itself skipped |
| Dialer.FailureLeaks | internal/sshlite/dialer.go:83-105 | a failed dial leaves the open clients as they were unless the two hops nearest the root came up below the one that failed; else it leaves open those of all hops that came up but the last |
| Dialer.ThirdHopFails | internal/sshlite/dialer.go:83-105 | a third host whose dial fails when its two jump hosts are up leaves the first one's client open |
| Dialer.DeepChainRefused | internal/sshlite/dialer.go:61-64 | a table made by sequential changes with a host no dial can reach, whatever the network |
| ClientPool.OnePlace | internal/sshlite/pool.go:35-99 | in every interleaving, each dialled client is in exactly one place: held by exactly one Connect, pooled under its own host, or closed |
| ClientPool.StepInv | internal/sshlite/pool.go:35-99 | every step keeps that conservation |
| ClientPool.ReturnedIsOwn | internal/sshlite/pool.go:35-67 | a Connect returns a client of the host it asked for, and no other Connect still holds it |
| ClientPool.LeavesPool | internal/sshlite/pool.go:69-99 | a pooled client leaves the pool, and is closed, if and only if its host is evicted or invalidated, all are closed, or a Connect finds its transport dropped |
| ClientPool.LookupDials | internal/sshlite/pool.go:36-48 | a Connect dials if and only if no pooled client of its host is up, and otherwise returns one that is |
| ClientPool.CloseAllClosesAll | internal/sshlite/pool.go:92-99 | closing all leaves every client ever dialled closed if and only if no Connect holds one at that moment |
| ClientPool.PooledUntilTaken | internal/sshlite/pool.go:35-99 | over every run a client stays pooled, with the insert time it had, until the first step that takes it, and is closed from then on |
| ClientPool.EvictedOnTime | internal/sshlite/pool.go:62-72 | however it is used, a client inserted at T is never taken by its own timer before T + idle; with no timer later than a given bound, it is not pooled beyond T + idle and that bound |
| ClientPool.EvictedByTimer | internal/sshlite/pool.go:62-72 | a client that nothing else takes is evicted by its own timer, between T + idle and the bound on lateness after it |
| ClientPool.EvictedInUse | internal/sshlite/pool.go:42-72 | its own timer closes a client within the idle time of a use only if that use came later than its insert, and always if later by more than timers are late; with punctual timers, if and only if later |
| ClientPool.UsedAtDeadline | internal/sshlite/pool.go:42-72 | a reachable state where the timer is about to close a client given to a Connect at that very moment |
| ClientPool.ReturnedStale | internal/sshlite/pool.go:35-67 | exactly when the client a Connect returns is dropped or closed: never from the first lookup; its own, if its transport dropped before the insert; the winner's, if it dropped, or a step took it between the lost insert and the return |
| ClientPool.DroppedReturned | internal/sshlite/pool.go:56-61 | a reachable state where the Connect that lost the race closed its live client and returned a dropped one |
| ClientPool.Pool.ConnectLookup | internal/sshlite/pool.go:36-48 | a pooled client that is up is returned; a dropped one is closed and forgotten, and the call goes on to dial |
| ClientPool.Pool.ConnectInsert | internal/sshlite/pool.go:55-66 | an entry made meanwhile is kept; without one the new client is pooled |
| ClientPool.Pool.ConnectClose | internal/sshlite/pool.go:57-60 | the client that lost the race is closed, and the kept one returned |
| ClientPool.Pool.RemoveLocked | internal/sshlite/pool.go:75-83 | the host's client, if pooled, is closed and forgotten |
| ClientPool.Pool.CloseAllPooled | internal/sshlite/pool.go:93-99 | the loop closes every pooled client and empties the pool |
| LoginLimiter.Service.LoginBegin | internal/auth/service.go:41-47 | a login is refused exactly when ten failures of its trimmed username or its address lie in the window; nothing is recorded |
| LoginLimiter.Service.LoginFinish | internal/auth/service.go:48-84 | succeeds if and only if the account is known, enabled, and both factors hold; an unreadable second factor records nothing; every other refusal records a failure and changes no other row |
| LoginLimiter.Service.RecordAttempt | internal/auth/service.go:212-229 | the row is appended; a success first deletes just the failures of its username and of its address |
| LoginLimiter.Service.PruneAttempts | internal/auth/service.go:241-245 | just the rows older than twenty minutes are deleted |
| LoginLimiter.WindowBound | internal/auth/service.go:33-47 | in every run with at most K logins in flight, no more than 9 + K failures of any username or address recorded in one closed ten-minute window are ever stored; one at a time gives ten |
| LoginLimiter.RecordedBound | internal/auth/service.go:212-238 | the same for all failures recorded in the window, deleted since or not, when no success of the window comes after one of them whose user or address it shares |
| LoginLimiter.MissAndWipe | internal/auth/service.go:212-222 | for every n, a run with one login at a time that records n failures of one username at one moment |
| LoginLimiter.WindowBoundReached | internal/auth/service.go:41-52 | for every K of at least 1, a run with at most K in flight that stores 9 + K |
| LoginLimiter.PruneInvisible | internal/auth/service.go:231-245 | over every run, each login ends, and each later question is answered, as it would have been without any pruning |
| LoginLimiter.SuccessUnlocks | internal/auth/service.go:216-228 | right after a recorded success its username and address are not locked |
| LoginLimiter.TrimExactly | internal/auth/service.go:42 | the username counted is all that lies between its outer spaces |
| Capture.CappedWriter.Write | internal/jobs/capture.go:29-39 | the file, the total and the preview stay those of the whole stream of chunks; the file only grows, and a closed one not at all |
| Capture.CappedWriter.AppendRing | internal/jobs/capture.go:42-48 | keeps the last bytes of the ring followed by the chunk |
| Capture.CappedWriter.Preview | internal/jobs/capture.go:51-55 | the last 2048 bytes of everything written, stored on disk or not |
| Capture.CappedWriter.Bytes | internal/jobs/capture.go:58-62 | the length of everything written |
| Capture.CappedWriter.Close | internal/jobs/capture.go:65-73 | closes a file that exists, once, and changes no content |
| Capture.FitMaximal | internal/jobs/capture.go:33-36 | the chunks stored are the longest run of first chunks that stays within the cap |
| Capture.StoredWhole | internal/jobs/capture.go:33-36 | what is stored is a prefix of the stream, within the cap, and the whole stream if and only if that fits |
| Capture.TeeWriter.Write | internal/sshlite/client.go:134-150 | the buffer holds the first bytes of the stream up to its limit, and the callback gets every chunk that is not empty |
| Capture.NonEmptySame | internal/sshlite/client.go:144-148 | not passing on the empty chunks changes neither the stream nor what is stored of it |
| Capture.DiskAndBuffer | internal/jobs/engine.go:193-204 | with one cap for both, what is on disk is a prefix of the buffer, which is a prefix of the stream, and all three agree when the stream fits |
| Capture.ReadOutput | internal/jobs/engine.go:381-406 | which requests are refused; a missing file reads as empty; otherwise every byte of the file from the offset on is returned, in place, with the offset after it |
| Capture.PollsReadAll | internal/jobs/engine.go:380-406 | polls of a growing file, each from the offset the last one gave, concatenate to the bytes of the file, as last seen, after the first offset: from 0, to the whole file |
| Snippets.Alphabets | internal/snippets/service.go:35-37 | the letters, digits and three marks of names, and the server's five spaces |
| Snippets.MatchComplete | internal/snippets/service.go:35-37 | at most one placeholder starts at a place, and the matcher finds it |
| Snippets.MatchSound | internal/snippets/service.go:35-37 | whatever the matcher finds is a placeholder of that name |
| Snippets.ScanIsSegmented | internal/snippets/service.go:42-57 | the segments of a scan concatenate back to the body; each hole is a placeholder, and no placeholder starts at a letter |
| Snippets.SegmentedIsScan | internal/snippets/service.go:42-57 | no other division of a body has those properties |
| Snippets.RequiredVars | internal/snippets/service.go:40-51 | the names of a body's placeholders, each once, strictly increasing |
| Snippets.LessExactly | internal/snippets/service.go:49 | the order of names is by the first differing character, a proper prefix first |
| Snippets.SortedUnique | internal/snippets/service.go:49 | a set of names has only one increasing list, so the sort used does not matter |
| Snippets.Render | internal/snippets/service.go:55-66 | the result is the segments of the body in their places, each placeholder with a given name replaced by its value, which is not scanned again, and any other kept and its name reported, in order and each time |
| Snippets.MissingNames | internal/snippets/service.go:53-66 | the names reported are the required names less those given |
| Snippets.EmptyMap | internal/snippets/service.go:53-66 | an empty map gives the body back and reports every required name |
| Snippets.RenderTemplate | web/src/lib/selection.ts:50-61 | the client's fill: an empty value counts as missing, and each missing name is reported once, at its first place |
| Snippets.FirstsInOrder | web/src/lib/selection.ts:54-59 | the names reported come in the order of their first places |
| Snippets.ScansAgree | web/src/lib/selection.ts:41-61 | server and client divide a body alike if and only if each placeholder the client finds is padded with spaces the server knows |
| Snippets.RendersAgree | web/src/lib/selection.ts:50-61 | on segments they share, both render the same text if and only if no name used is given an empty value, and then both miss the same names |
| Snippets.ServerScan | internal/snippets/service.go:35-57 | for every body, the server scans what the client scans, with the holes only the client knows taken as text |
| Snippets.TwinsCompared | web/src/lib/selection.ts:50-61 | for every body and map, the server's rendering fills in the plain ones of the client's holes and leaves the others as text |
| Snippets.TwinsAgree | web/src/lib/selection.ts:50-61 | of any body without such holes, both render the same text if and only if no name of it is given an empty value |
| Snippets.TwinsAlwaysAgree | web/src/lib/selection.ts:50-61 | a body renders alike on both sides for all non-empty values if and only if the server knows every hole the client finds |
| Snippets.UnplainBody | web/src/lib/selection.ts:41-43 | a body whose hole, padded with a no-break space, only the client knows |
| Snippets.FreshExactly | internal/snippets/service.go:53-66 | a rendered body scans to just its kept holes if and only if, in no run of letters between them, a dollar sign of the body's text or of a value starts a placeholder |
| Snippets.DollarFreeIsSafe | internal/snippets/service.go:53-66 | without such dollar signs the placeholders of the result are exactly those reported missing |
| Snippets.FreshPlaceholder | internal/snippets/service.go:53-66 | a body and a value whose rendering holds a fresh placeholder |

The remaining methods of `JobEngine.JobEngine` (Launch, SetRunning, TakeSlot, BeginTarget, AbandonTarget, EndTarget, LeaveSlot, CancelContext, CancelPending and Stop) are the single steps of the protocol in `Engine.dfy`, in the order of `internal/jobs/engine.go:118-292`; each is proved to take the state to what `Engine.Apply` says.

## Left out

- Time zones, daylight saving and the string formats of timestamps: all instants are UTC integers, compared as numbers and not as text.
- The bitset as a machine word: it is the set of its one bits, so the shift and mask instructions themselves are not modelled.
- Cryptography and JSON: password, second-factor and credential checks are parameters; the audit hash is an assumed function of the fields, and a detail stands for its compact serialisation.
- Database failures, other than writes refused after a cancel; foreign keys, cascades and the deletion of jobs, runs and output files.
- SSH and SFTP traffic and host-key recording: a hop connects or not, and shakes hands or not; the host table does not change during one dial.
- Connector results: an execution ends with any status; the timeout, signal and exit-code branches of `internal/sshlite/client.go` are not modelled.
- The agent request multiplexer in `internal/agentconn`: frames may be dropped there, so no delivery guarantee holds.
- The wall-clock refresh of `last_run_at` inside StartRun, and run and host ids beyond being fresh.
- The order of rows within a run: rows are listed in insertion order, which the aggregate does not depend on.
- The LIKE and range filters of the audit listing: the filter is any predicate on rows.
- Host tags, groups, notes, favourites and options, and the fields of runs and targets that hold text or times.
- Sessions and the rows a login creates after its success is recorded.
- HTTP handlers, server-sent events, the terminal, tunnels, metrics, settings, role checks, the command line and the web pages: input, output and presentation.
- JobEngine.JobEngine.Reconcile: is one step here when it runs with live runs beside it; only a boot that is interrupted part of the way is modelled in smaller steps.
- Capture.CappedWriter.Write: the byte total is an unbounded integer, because 2^63 bytes are out of reach; one call is one step, as its lock makes it.
- Snippets.RequiredVars: names and bodies are sequences of characters; bytes that are not valid UTF-8 are not modelled.
