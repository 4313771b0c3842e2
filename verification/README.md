# A verified model of the Naukri server's control logic

The server applies for jobs on a schedule through a browser and a REST API it does not control. This
project models the state it keeps while doing so and proves what that state promises: stored results that
can always be read back, a daily window served once, a page pool that never lends a page twice, a token
reloaded once however many callers ask, an agent that stays within its quota and asks before acting under a
new policy, and the limiters, breakers and tables around them. Inputs from outside (search results, HTTP
answers, page liveness, exceptions, crashes, the clock) are arbitrary. `dafny verify dfyconfig.toml` checks
all of it.

The modules, by the file they model:

- `scheduler.py`: `Json`, `JsonRoundTrip`, `NumberGrammar` (JSON values, the text written for them, RFC 8259
  sections 4 to 7, and the reader), `Scanner` and `BlobSalvage` (the repair of a document cut at any character),
  `ResultStorage`, `StorageLaws` and `StoredFields` (the writer that must never need that repair, and what a
  stored row still says of each field), `DayWindow`, `ScheduleRuns` and `IntervalRuns` (the once-a-day window
  and the intervals over restarts, unreadable history and retention).
- `browser.py`: `PoolState`, `PoolProtocol`, `PagePoolObject` (the page pool as values, as a transition
  system with one program counter per task, and as the object), `IdlePages` (which pages are kept and handed
  out, by the instants at which they went idle), `TokenRefresh`.
- `agent.py`, `domain/agent.py`: `AgentCycle`, `Blocklist`, `PolicyGate`, `ConfigOverlay`.
- `resilience.py`, `browser_watchdog.py`, `kill_switch.py`: `SlidingWindow`, `RateLimiting`, `Watchdogs`,
  `KillSwitches`.
- `sagas.py`: `Sagas`. `api.py`: `ApiClients` (the breaker and what a call does), `CallOutcomes` (what it
  comes to, by its answers), `ApiClientObject`. `database.py`: `Retention`.

What the source updates in place is a class here whose methods are proved against a specification function;
what spans many calls is a run of events over that function, with an invariant. Where a run-level property
is about concurrency, every `await` is a point at which any other event may happen.

Where the code does less than its own documentation says, the model follows the code, a lemma names an
input, and another says exactly when the promise holds:

- `reduce_result_for_storage` says that a result which did not fit always says so. It does exactly when no
  object that cannot be encoded made `_dumps` store its envelope (`StorageLaws.SaysWhatWasDropped`). A dict
  of one long row of emoji and a set is such a result under the scheduler's own cap
  (`StorageLaws.LosesItsMarks`).
- The kill switch says that a corrupt state file means tripped. A file that says `null` reads as a fresh
  install, and one that holds another JSON value than an object, or is not UTF-8, stops the process from
  starting (`KillSwitches.ANullFileOpens`, `KillSwitches.DamageIsClosedExactlyWhen`,
  `KillSwitches.HaltedThroughoutExactlyWhen`).
- A saga says that it compensates the completed steps in reverse. It looks them up by name
  (`Sagas.OwedExactlyWhen`, `Sagas.TwinsUndoTheFirstTwice`), and an executor run again, which no caller in the
  repository does, undoes its first run once more (`Sagas.CompensationIsExactlyWhen`,
  `Sagas.ARerunUndoesTheFirstRunAgain`).
- The REST breaker says that half open allows one probe. It admits every caller until one of them reports
  (`ApiClients.RefusedExactlyWhen`, `ApiClients.ProbesAreNotCounted`). A success is counted before its body
  is read, so one call can count twice (`ApiClients.OneCallIsBounded`, `ApiClients.ALostBodyIsCountedTwice`),
  and a service whose bodies are all lost never opens the breaker (`CallOutcomes.LostBodiesNeverOpenIt`); as
  many failing calls as the threshold do if none of them loses a body
  (`CallOutcomes.FailingCallsOpenTheBreaker`), and `CallOutcomes.FailuresInARow` has the exact count.
- The policy gate says that a list is reviewed before anything is submitted under a new policy. That holds
  exactly when every cycle let through comes after one that saw the policy, had candidates and was not a dry
  run (`PolicyGate.ReviewedExactlyWhen`). It fails after a dry run or a cycle without candidates, which pay
  the debt too (`PolicyGate.AnyCompletedCyclePays`), after a fingerprint that moved within a cycle
  (`PolicyGate.AChangeWithinACycleIsMissed`), and for a mode that is none of the three, which is loaded
  unchecked when there is no overlay (`ConfigOverlay.AnUnknownModeIsLoaded`).
- Retention says that a row whose date is unknown is never deleted and that preview and deletion never
  disagree. The deletion follows the table as it was read: the two promises hold exactly when no upsert since
  has changed a row so that it would be judged otherwise, or so that it has lost its date
  (`Retention.PreviewIsDeletedExactlyWhen`, `Retention.UnknownDatesAreKeptExactlyWhen`,
  `Retention.AnUpsertInBetweenIsOverrun`).
- The watchdog says that it sends two events per outage, and counts restarts that succeed. Giving up is only
  ever announced with a first failure; every start that comes back, even after a failed launch, begins a new
  count; so an outage sends one event for every start that came back in it and one more while it goes on,
  never more than the restarts left plus one (`Watchdogs.BrowserWatchdog.Turn`). With at most one restart
  left that is at most two; a new watchdog with any more can send three
  (`Watchdogs.ThreeEventsInOneOutage`).
- The agent says that a day stays within its maximum. Its record does (`AgentCycle.TheRecordStaysWithinTheDay`),
  but a submission that leaves no record does not count against it. The day is sure to stay within its maximum
  through the next cycle if and only if every submission so far is on record
  (`AgentCycle.NextCycleStaysWithinExactlyWhen`). With a maximum of one, two cycles that leave no record submit
  two (`AgentCycle.TwoOnADayOfOne`, `AgentCycle.NothingRecordedIsNoBound`).

## Model

| member | source | states |
|---|---|---|
| `JsonRoundTrip.RoundTrip` | naukri_server/scheduler.py:42-47 | every JSON value with string keys and no unpaired surrogate in its strings is written by `json.dumps` and read back by `json.loads` as the same value |
| `JsonRoundTrip.ValueRoundTrip` | naukri_server/scheduler.py:42-47 | the reader takes exactly a printed value off the front of any text that may follow it, and leaves the rest |
| `JsonRoundTrip.StringRoundTrip` | naukri_server/scheduler.py:42-47 | every string without unpaired surrogates survives escaping, including the surrogate pairs beyond the basic plane |
| `NumberGrammar.NumbersFollowTheGrammar` | naukri_server/scheduler.py:88-97 | a text is read as a number exactly when it follows the grammar of RFC 8259, section 6: an optional minus sign, an integer without leading zeros, an optional fraction, an optional exponent |
| `BlobSalvage.SalvageJson` | naukri_server/scheduler.py:80-130 | the character loop with its stack, flags and cut position computes what the state machine of `Scanner` and the repair function say, error cases included |
| `Scanner.AcceptedIsBalanced` | naukri_server/scheduler.py:98-120 | on any text, printed by us or not, that `json.loads` accepts without unpaired surrogate escapes, the scanner ends outside a string with nothing open |
| `BlobSalvage.ProperPrefixIsRejected` | naukri_server/scheduler.py:80-97 | no proper prefix of a printed list or dict is itself a document, because the scanner always ends it with something open |
| `BlobSalvage.CutAnywhere` | naukri_server/scheduler.py:80-130 | a printed list or dict cut at any character: the whole text is read back as it was; a cut one is never taken for whole, and is recovered exactly when the scanner met a comma, as a proper truncation of the original whose printed form is the kept prefix plus the closers |
| `BlobSalvage.LeadingEntriesSurvive` | naukri_server/scheduler.py:80-130 | every entry that the prefix holds together with its comma is recovered unchanged, in order |
| `BlobSalvage.CutValue` | naukri_server/scheduler.py:98-130 | the same for a value nested at any depth, whatever the scanner has seen before it |
| `ResultStorage.DescribeContainer` | naukri_server/scheduler.py:54-77 | the count of a container and the digest of its numeric fields, built field by field, are those of the specification function |
| `ResultStorage.ReduceFields` | naukri_server/scheduler.py:203-254 | pass 1 over the fields, in place, is the specification's |
| `ResultStorage.KeepVerdict` | naukri_server/scheduler.py:203-254 | pass 2 over the kept fields, in place, is the specification's |
| `ResultStorage.ReduceResultForStorage` | naukri_server/scheduler.py:203-254 | the stored text is the dump of the first of the four forms that fits |
| `StorageLaws.AlwaysReadable` | naukri_server/scheduler.py:203-254 | for every result and cap `salvage_json` reads the stored text back as `ok`, never as salvaged, and gets the chosen form |
| `StorageLaws.FitsTheCap` | naukri_server/scheduler.py:203-254 | the stored text is never longer than the cap, or than 79 plus the digits of the original length if the cap is below that; a dump that fits is stored unchanged |
| `StorageLaws.FloorLength` | naukri_server/scheduler.py:248-254 | the last resort is exactly 79 characters plus the digits of the original length |
| `StorageLaws.SaysWhatWasDropped` | naukri_server/scheduler.py:203-254 | a result that did not fit carries `truncated` and its true original length exactly when no field that cannot be encoded made `_dumps` store its envelope instead |
| `StorageLaws.EncodableFieldsSuffice` | naukri_server/scheduler.py:203-254 | it always does when no top-level field is an object `json.dumps` refuses |
| `StorageLaws.LosesItsMarks` | naukri_server/scheduler.py:203-254 | under the cap of 2000 and with the texts Python gives, `{"rows": ["...300 emoji..."], "at": {1}}` does not fit and the row stored for it says nothing of what was dropped |
| `StoredFields.StoredFieldsRemain` | naukri_server/scheduler.py:203-236 | when the whole does not fit and the reduced dict does, `salvage_json` reads back, for every field: a scalar as it was, a string of more than 300 characters as its first 300 and `...`, a list as its length and the extremes of the three numeric fields of its records, a dict as its number of keys; with the marks and nothing else |
| `StoredFields.StoredVerdictRemains` | naukri_server/scheduler.py:238-246 | when that does not fit either: the four verdict fields in the same way, the marks and the number of fields dropped, nothing else |
| `StoredFields.StoredFloor` | naukri_server/scheduler.py:248-254 | when nothing else fits: the marks and the fixed summary |
| `StoredFields.StoredWhole` | naukri_server/scheduler.py:212-217 | a result that fits is read back whole, one that is no dict under `result` with status `success` |
| `StoredFields.StoredEnvelope` | naukri_server/scheduler.py:42-47 | a result that cannot be encoded and whose envelope fits is read back as status `unknown` and the first 300 characters of its text |
| `StoredFields.ListRemains` | naukri_server/scheduler.py:54-77 | a list is described by its length and, for each of three fields that a record carries, by one of the values with none below it and one with none above, under any order of the numbers |
| `StoredFields.DecimalIsNumeral` | naukri_server/scheduler.py:73-77 | a count is written in digits that read back as the count |
| `StorageLaws.GetPass2` | naukri_server/scheduler.py:203-254 | pass 2 keeps exactly the verdict fields, the marks and the summary |
| `DayWindow.ClosedForm` | naukri_server/scheduler.py:472-487 | replacing the hour and stepping back a day is floor division in UTC+5:30; now lies in the window; the next target is the window's start plus a day |
| `DayWindow.WindowIsUnique` | naukri_server/scheduler.py:472-487 | no other window of that hour contains now |
| `DayWindow.WindowMonotone` | naukri_server/scheduler.py:472-487 | windows advance with the clock and never back |
| `DayWindow.UntilNextRun` | naukri_server/scheduler.py:652-664 | the wait is in (0, a day], passes no awaited opening and ends at one unless there is none |
| `DayWindow.DailySleep` | naukri_server/scheduler.py:596-604 | the daily bucket sleeps at most an hour and never past the next opening |
| `ScheduleRuns.TaskScheduler.IsDue` | naukri_server/scheduler.py:444-470 | the two due tests: an interval task goes by the time since its last start, a fixed-hour task by its window |
| `IntervalRuns.AWakeBeginsExactlyWhen` | naukri_server/scheduler.py:444-506 | at any point of any run without interruption a wake begins a start exactly when the interval has passed since the last stamp; for a fixed hour, exactly when its window is open and nothing was stamped in it |
| `IntervalRuns.IntervalsAreKept` | naukri_server/scheduler.py:466-470 | over any run without interruption every scheduled start of an interval task is decided at least the interval after the stamp before it, whoever made that start |
| `IntervalRuns.AnyTwoStartsAreApart` | naukri_server/scheduler.py:666-687 | so any two starts, the later one scheduled, are stamped at least the interval apart |
| `IntervalRuns.AfterARestart` | naukri_server/scheduler.py:508-570 | after a restart, as long as nothing was started, a plain interval task is begun exactly when a whole interval has passed since the restart, a catch-up task exactly when it has passed since every row on record, or the history could not be read |
| `IntervalRuns.TheClockShowsTheLastStamp` | naukri_server/scheduler.py:666-687 | over any run without interruption the schedule goes by the last stamp, and time by every instant in order |
| `ScheduleRuns.TaskScheduler.ReadHistory` | naukri_server/scheduler.py:544-570 | history is consulted for exactly the catch-up and fixed-hour tasks, and unreadable history counts a fixed-hour task as served |
| `ScheduleRuns.TaskScheduler.Prime` | naukri_server/scheduler.py:508-526 | every task gets its seed, becomes due, or waits a full interval; other names keep their entry |
| `ScheduleRuns.TaskScheduler.PrimeFromDb` | naukri_server/scheduler.py:544-570 | the two together give every task the seed that the run-level proof uses |
| `ScheduleRuns.AtMostOncePerWindow` | naukri_server/scheduler.py:489-506 | over any run of ticks, wakes, manual runs, crashes, restarts with or without readable history and prunes of at least a day, a fixed-hour task is started by the schedule at most once in each daily window |
| `ScheduleRuns.DueAfterRestart` | naukri_server/scheduler.py:544-570 | after a restart a task is due exactly when history is readable, the window is still open for catching up and no row falls in it |
| `ScheduleRuns.NextKeepsInv` | naukri_server/scheduler.py:666-687 | each single step keeps the invariant: a start in the current window shows in memory and on disk, because the row is inserted before the function runs |
| `ScheduleRuns.PruneSparesWindow` | naukri_server/database.py:1624-1625 | retention of at least a day never removes a row of the current window |
| `ScheduleRuns.ZeroHorizonRunsTwice` | naukri_server/database.py:1601-1645 | with a horizon of zero days the same window is served twice |
| `PoolProtocol.PagesArePartitioned` | naukri_server/browser.py:686-818 | in every interleaving of checkouts, creations, recoveries, failures, returns, sweeps, parks and rebinds, the pages on the books are exactly the idle ones plus the held ones, each once; pages and tabs being opened never pass the maximum; nobody waits in the queue |
| `PoolProtocol.HeldPagesAreExclusive` | naukri_server/browser.py:686-818 | no page is ever held by two tasks, or held and idle |
| `PoolProtocol.LeasesAreCounted` | naukri_server/browser.py:580-582 | checkouts minus returns is the number of tasks between permit and return, and no lease outstanding means no page held |
| `PoolProtocol.SuspensionsWaitForLeases` | naukri_server/browser.py:580-603 | in every reachable state a suspension goes through exactly when nobody holds a page or is opening one, and leaves none on the books; then nobody gets in until a resumption, which leaves one idle page |
| `PoolProtocol.SweepSparesLeases` | naukri_server/browser.py:820-923 | a sweep in any reachable state leaves every leased page on the books and out of the idle queue |
| `PoolProtocol.RoomWhenGranted` | naukri_server/browser.py:686-818 | a task with its permit finds an idle page or room to create one |
| `IdlePages.IdlePagesCarryTheirInstant` | naukri_server/browser.py:803-818 | in every reachable state each idle page carries the instant at which it last went idle, read off the events: its return, its cancelled check, the resumption that opened it, or the start; and times are on record for exactly the pages on the books |
| `IdlePages.FreshPagesSurviveASweep` | naukri_server/browser.py:820-923 | a sweep less than the timeout after that instant never closes the page |
| `IdlePages.SweepsGoByTheInstants` | naukri_server/browser.py:820-923 | by the instants alone, a sweep closes only pages idle for the whole timeout, the longest idle first, and all of those but what the floor needs; it queues what it keeps freshest first |
| `IdlePages.TheLongestIdleIsHandedOut` | naukri_server/browser.py:752-757 | as long as nothing was swept, a checkout that finds idle pages is handed the one idle longest |
| `PoolProtocol.NextKeepsInv` | naukri_server/browser.py:605-818 | each step of the protocol, cancellations, creation and recovery included, keeps the counting invariant |
| `PoolState.ReapKeepsTheFreshest` | naukri_server/browser.py:820-923 | kept and closed pages are a permutation of the idle ones; closed ones are past the timeout and no fresher than any kept; exactly min(idle, max(floor, young)) stay |
| `PoolState.SplitIsACut` | naukri_server/browser.py:820-923 | on pages sorted by age the loop cuts once |
| `PoolState.SortSorted` | naukri_server/browser.py:820-923 | the sort by age is ascending |
| `PagePoolObject.PagePool.Choose` | naukri_server/browser.py:686-818 | the three ways a checkout can go on, with the queue and the count it leaves |
| `PagePoolObject.PagePool.Opened` | naukri_server/browser.py:605-632 | a created page goes on the books with its time |
| `PagePoolObject.PagePool.DropDead` | naukri_server/browser.py:634-668 | a dead page is struck off |
| `PagePoolObject.PagePool.Finished` | naukri_server/browser.py:803-818 | a return counts, gives its permit back, stamps its page with the time and queues it last; without a page only the first two |
| `PagePoolObject.PagePool.Parked` | naukri_server/browser.py:588-597 | parking empties the books and the queue |
| `PagePoolObject.PagePool.Rebound` | naukri_server/browser.py:599-603 | a resumed context starts with its one page |
| `PagePoolObject.PagePool.Partition` | naukri_server/browser.py:820-923 | the loop that keeps the floor and the young is the specification's split |
| `PagePoolObject.PagePool.Settle` | naukri_server/browser.py:820-923 | keepers go back in order, closed pages leave the books and their times are forgotten |
| `PagePoolObject.PagePool.ReapIdlePages` | naukri_server/browser.py:820-923 | one sweep takes the pool to the specification's state and does nothing while the circuit is open |
| `TokenRefresh.OneRefreshAtATime` | naukri_server/browser.py:142-188 | in every interleaving at most one caller is in the refresh section, and the lock is free whenever nobody is |
| `TokenRefresh.OneReloadPerStaleToken` | naukri_server/browser.py:265-298 | however many callers come back with the same rejected token, at most one reloads as long as the cache is not emptied, the token does not come back and no reload is abandoned; none does once another token is cached |
| `TokenRefresh.ReloadsAreDisturbancesPlusOne` | naukri_server/browser.py:265-298 | over any run, reloads by the callers with one rejected token are at most one more than the steps that empty the cache, put the token back or abandon a reload; none more once it is covered |
| `TokenRefresh.CoveredStays` | naukri_server/browser.py:265-298 | while another token is cached or being fetched, no step lets such a caller reload |
| `TokenRefresh.AClearedCacheReloadsAgain` | naukri_server/browser.py:138-140 | the same two callers reload once, or twice if the cache is emptied in between |
| `TokenRefresh.TokenManager.Reuse` | naukri_server/browser.py:289-296 | the double check reuses the cache exactly when it holds another token than the rejected one, and empties it otherwise |
| `TokenRefresh.TokenManager.Extract` | naukri_server/browser.py:92-115 | without a context nothing changes; otherwise the header is joined from all cookies and the cache gets the first cookie called `nauk_at`, or nothing if there is none, it is empty or the reading fails; either way a step of the protocol |
| `TokenRefresh.TokenManager.Acquired` | naukri_server/browser.py:160-175 | taking the lock is the protocol's step |
| `TokenRefresh.TokenManager.Release` | naukri_server/browser.py:187-188 | the release in `finally` is the protocol's step |
| `SlidingWindow.PrunedAgrees` | naukri_server/resilience.py:86-95 | on a monotone clock the pruned list and the whole history filter to the same suffix |
| `SlidingWindow.FreshIsSuffix` | naukri_server/resilience.py:86-95 | the filter keeps exactly the suffix that is younger than the period |
| `SlidingWindow.FewInAnyStretch` | naukri_server/resilience.py:79-96 | spaced grants put at most that many into any stretch shorter than the period |
| `SlidingWindow.Filter` | naukri_server/resilience.py:87-87 | the comprehension as a loop |
| `RateLimiting.RateLimiter.Acquire` | naukri_server/resilience.py:79-96 | one grant; over the whole history grant i plus max comes at least a period after grant i and the list stays sorted and short; it sleeps exactly when the period already holds that many grants |
| `RateLimiting.GrantKeepsConsistent` | naukri_server/resilience.py:79-96 | a grant after the pruned list keeps the spacing of all grants ever made |
| `RateLimiting.GrantIsSpaced` | naukri_server/resilience.py:79-96 | the grant that many earlier has aged out |
| `Watchdogs.BrowserWatchdog.Turn` | naukri_server/browser_watchdog.py:60-78 | a turn of the loop with every counter after it: failed probes count until a healthy one or a start that comes back; a restart is attempted exactly at a second failed probe in a row, within budget; exactly the first failure of a count is announced, so an outage sends one event for every start that came back in it and one more while it goes on, at most the restarts left plus one; restarts are spaced by the reset stretch |
| `Watchdogs.BrowserWatchdog.MaybeRestoreRestartBudget` | naukri_server/browser_watchdog.py:122-134 | the budget comes back exactly when the reset stretch has passed without a restart |
| `Watchdogs.BrowserWatchdog.HandleFailure` | naukri_server/browser_watchdog.py:136-194 | the first failure is announced, and giving up with it if the budget is gone; then a restart from the second on, within budget; the failure, restart and event counts it leaves |
| `Watchdogs.BrowserWatchdog.AttemptRestart` | naukri_server/browser_watchdog.py:196-254 | a start that comes back uses the budget and resets the count, also when it swallowed a failed launch; one that raises, or is skipped, changes nothing |
| `Watchdogs.ThreeEventsInOneOutage` | naukri_server/browser_watchdog.py:136-194 | from any new watchdog with two restarts or more, five failed probes in a row and two starts that come back send three events in one outage |
| `Watchdogs.TwoFailuresInARow` | naukri_server/browser_watchdog.py:136-194 | a new watchdog attempts no restart at its first failed probe and one at the second, if it has any |
| `Watchdogs.OneMoreRestart` | naukri_server/browser_watchdog.py:236-241 | a restart within budget keeps any so many restarts in a row spaced by the reset stretch |
| `KillSwitches.TripsExactlyOnACluster` | naukri_server/kill_switch.py:220-240 | an untripped switch trips at a signal exactly when at least the threshold number of all signals since the last reset or start lie inside the window, with their number and kind on record |
| `KillSwitches.SecondsAreCut` | naukri_server/kill_switch.py:232-238 | the window in the reason is its whole seconds, cut towards zero |
| `KillSwitches.SoftListAgrees` | naukri_server/kill_switch.py:220-240 | over any run the pruned list agrees with the whole history |
| `KillSwitches.FirstReasonStays` | naukri_server/kill_switch.py:185-204 | once a trip is on disk its reason, kind and time outlive every later trip, signal and restart until a reset, whether or not later writes succeed |
| `KillSwitches.ATripIsKept` | naukri_server/kill_switch.py:185-204 | a first trip keeps the reason, kind and time it was told, on disk too if it could be written; one more only counts |
| `KillSwitches.AResetEndsTheHalt` | naukri_server/kill_switch.py:207-217 | a reset ends the halt and forgets everything about it, and after a restart it is still over exactly when it could be written or the file that stayed does not halt |
| `KillSwitches.EveryTripIsCounted` | naukri_server/kill_switch.py:185-204 | with successful writes the counter counts every trip across restarts |
| `KillSwitches.DiskMirrorsMemory` | naukri_server/kill_switch.py:115-132 | with successful writes memory and disk agree at every point of every run, from any first file and under any damage |
| `KillSwitches.RestartReloads` | naukri_server/kill_switch.py:135-164 | so a restart at any point reloads the same state, reason and count |
| `KillSwitches.StaysHalted` | naukri_server/kill_switch.py:135-164 | a halted process on a halting file stays halted through any failed writes and any damage that leaves a halting file |
| `KillSwitches.DamageIsClosedExactlyWhen` | naukri_server/kill_switch.py:102-112 | a start on a damaged file, after any run, is halted exactly when the damage left something other than no file, a `null` document or an untripped record |
| `KillSwitches.ANullFileOpens` | naukri_server/kill_switch.py:135-144 | after any run, a restart on a file that says `null` is not halted |
| `KillSwitches.WhatAStartFinds` | naukri_server/kill_switch.py:135-164 | a file that cannot be read or converted starts tripped, for one trip at that time; none, or `null`, pristine; a record as recorded; bytes that do not decode and other JSON values stop the start |
| `KillSwitches.TripOutlivesACrashExactlyWhen` | naukri_server/kill_switch.py:115-132 | a first trip outlives a crash exactly when it could be written or the old file halts anyway |
| `KillSwitches.KillSwitch.TripSwitch` | naukri_server/kill_switch.py:185-204 | the whole new state of a trip, and whether it was the first |
| `KillSwitches.KillSwitch.ResetSwitch` | naukri_server/kill_switch.py:207-217 | the whole new state of a reset |
| `KillSwitches.KillSwitch.RecordSoftSignal` | naukri_server/kill_switch.py:220-240 | the whole new state of a signal; true exactly when it caused the trip |
| `KillSwitches.KillSwitch.WriteStateFile` | naukri_server/kill_switch.py:115-132 | a write replaces the record or leaves the old file |
| `Sagas.CompensationIsExactlyWhen` | naukri_server/sagas.py:80-88 | when the steps before k are compensated and more compensations follow, as on an executor with an earlier history, what is called is exactly what is owed if and only if every completed step finds its own by name (or neither it nor the one found has any) and nothing more is called |
| `Sagas.OwedExactlyWhen` | naukri_server/sagas.py:80-88 | the compensations called are those of the steps k-1 down to 0, in that order and each once, if and only if every completed step finds its own |
| `Sagas.DistinctNamesUndoInReverse` | naukri_server/sagas.py:80-88 | distinct names suffice, whatever the compensations raise |
| `Sagas.TwinsUndoTheFirstTwice` | naukri_server/sagas.py:80-88 | two steps of one name undo the first twice and the second never |
| `Sagas.SagaExecutor.Run` | naukri_server/sagas.py:59-110 | what was completed is a prefix of the steps; on success nothing is compensated; on failure the report, status, errors and compensations are these, and exactly the owed ones if and only if every completed step finds its own and the names completed in earlier runs, if any, call nothing |
| `Sagas.SagaExecutor.Compensate` | naukri_server/sagas.py:80-88 | the loop over the completed steps, backwards, with errors swallowed |
| `ApiClients.BreakerIsItsHistory` | naukri_server/api.py:77-115 | for any history the breaker is closed exactly while fewer failures than the threshold have come since the last success, and otherwise half open exactly when probed since the last failure (reading `state` is one such probe) |
| `ApiClients.RefusedExactlyWhen` | naukri_server/api.py:100-108 | exactly when a call is refused: the service is failing, nobody has probed it since, and it is too early |
| `ApiClients.ApiCircuitBreaker.RecordSuccess` | naukri_server/api.py:90-92 | the whole new state |
| `ApiClients.ApiCircuitBreaker.RecordFailure` | naukri_server/api.py:94-98 | the whole new state |
| `ApiClients.ApiCircuitBreaker.CanExecute` | naukri_server/api.py:100-108 | the whole new state and the answer |
| `ApiClients.CourseCosts` | naukri_server/api.py:302-516 | exactly how many requests, at most how many refreshes, and exactly how many breaker records the attempts from any one on cost |
| `ApiClients.OneCallIsBounded` | naukri_server/api.py:302-516 | at most 1 + max(1, retries) requests and one refresh; at most one breaker record exactly when no success loses the connection while its body is read, or one does and the call ends silently |
| `CallOutcomes.ACallComesTo` | naukri_server/api.py:302-516 | told by the answers: a call counts a success for every attempt answered with one, an error exactly when it ends in a failure, a refresh when its first answer asks for one and a retry for every other attempt that is followed; the caller gets what the last answer gives |
| `CallOutcomes.ACallGoesOnExactlyWhile` | naukri_server/api.py:379-516 | an attempt is followed by another exactly after a lost connection or one of four statuses while retries are left, or at first after a 401, 403 or 406 whose refresh succeeds |
| `CallOutcomes.ACallIsHeard` | naukri_server/api.py:302-516 | the breaker hears of a call first its successes and then its failure |
| `CallOutcomes.FailuresInARow` | naukri_server/api.py:90-98 | a call let through adds one to the failures in a row if it ends in a failure, and clears those before if any attempt was answered with success |
| `CallOutcomes.FailingCallsOpenTheBreaker` | naukri_server/api.py:90-108 | whatever came before, as many failing calls in a row as the threshold leave the breaker open, provided that none loses a body |
| `CallOutcomes.LostBodiesNeverOpenIt` | naukri_server/api.py:369-378 | if every answer loses its body every call fails and is counted as an error, and the breaker never opens |
| `ApiClients.BooksBalance` | naukri_server/api.py:302-516 | over any calls, successes and errors never pass the calls by more than the bodies lost while being read |
| `ApiClients.ALostBodyIsCountedTwice` | naukri_server/api.py:369-378 | one call that records two outcomes |
| `ApiClientObject.ApiClient.ApiRequest` | naukri_server/api.py:302-516 | one call from the breaker to the result: the state it leaves, and by the answers how much each counter grows and what the caller gets; a refused call counts nothing |
| `ApiClientObject.ApiClient.Meet` | naukri_server/api.py:329-516 | one attempt, branch by branch: what is counted, whether another follows and what the caller gets |
| `ApiClientObject.ApiClient.Continue` | naukri_server/api.py:419-420 | the recursion from any attempt on |
| `Blocklist.Check` | naukri_server/domain/agent.py:32-44 | the reason given is that of the first company pattern that occurs, else of the first title keyword |
| `Blocklist.Reason` | naukri_server/domain/agent.py:32-44 | there is a reason exactly when the list is enabled and some pattern occurs |
| `Blocklist.TheReasonNamesThePattern` | naukri_server/domain/agent.py:32-44 | the reason names the first company pattern that occurs, and only when none does the first title pattern |
| `Blocklist.MorePatternsBlockMore` | naukri_server/domain/agent.py:32-44 | a longer list blocks all that a shorter one does, and an empty pattern blocks everything |
| `AgentCycle.Decide` | naukri_server/agent.py:479-708 | the nested loops keep the first eligible offer of every job up to the quota, sorted; record this decision for every offer; and ask every enabled search with this threshold and page |
| `AgentCycle.CandidatesAreSound` | naukri_server/agent.py:539-708 | whatever the searches return: distinct jobs, none applied to, none blocked, all at or above the floor, no more than the quota left, best first |
| `AgentCycle.NothingIsOverlooked` | naukri_server/agent.py:539-708 | every eligible job is kept unless the quota is used up |
| `AgentCycle.JudgeKeeps` | naukri_server/agent.py:575-684 | the order of the four questions does not matter to what is kept |
| `AgentCycle.EveryReasonHolds` | naukri_server/agent.py:575-684 | every offer gets one decision: to apply exactly when it is kept, and otherwise a reason that holds |
| `AgentCycle.ByFitSorts` | naukri_server/agent.py:686-686 | a descending permutation that keeps the order of equal scores |
| `AgentCycle.Queries` | naukri_server/agent.py:491-559 | no search is asked for anything below the floor or for a page outside 1 to 100 |
| `AgentCycle.QueriesAskForTheirSearches` | naukri_server/agent.py:491-559 | one query for each enabled search, in order: its threshold is the least number below neither the floor nor the deciding setting (the search's own if it converts, else the agent's, else the default); its page the configured one within 1 to 100, or 20 |
| `AgentCycle.Act` | naukri_server/agent.py:791-842 | the submissions are a prefix of the candidates, up to the tripped switch, the halting outcome or the unrecordable error; the count, the halt and the crash are these |
| `AgentCycle.DayStaysWithinItsMaximum` | naukri_server/agent.py:447-476 | what a cycle submits, each job once and none applied to before, never takes the day past its maximum, or past what was already applied |
| `PolicyGate.SubmitsExactlyWhen` | naukri_server/agent.py:200-240 | over any history, a cycle submits exactly when it is configured to and the last cycle recorded ran under the same fingerprint, or when its mode is none of the three |
| `PolicyGate.OneCycleIsHeldBack` | naukri_server/agent.py:856-872 | after a change nothing is submitted until one cycle is completed and recorded, that cycle submits nothing, and every later one under that fingerprint runs in its configured mode |
| `PolicyGate.OwedUntilPaid` | naukri_server/agent.py:764-784 | cycles that crash, fail to notify or cannot write neither submit nor pay the approval |
| `PolicyGate.PaidStaysPaid` | naukri_server/agent.py:200-240 | once paid, no cycle under that fingerprint is downgraded |
| `PolicyGate.TheFileRemembers` | naukri_server/agent.py:215-220 | the state file, old key or new, holds the fingerprint of the last cycle recorded |
| `PolicyGate.RecordsExactlyWhen` | naukri_server/agent.py:856-872 | a cycle leaves its fingerprint exactly when it finishes, or fails to store a list it was not to put up, with a fingerprint and a file that can be written |
| `PolicyGate.TheOldNameStillCounts` | naukri_server/agent.py:215-220 | a file from before the key was renamed still counts, unless it has the new key too, null or not |
| `PolicyGate.AnyCompletedCyclePays` | naukri_server/agent.py:732-743 | an owed cycle puts a list up exactly when it has candidates, is not a dry run and stores the list; any completed and recorded one lets the next through; the promise holds for the two exactly when the paying one put its list up, or none paid |
| `PolicyGate.AChangeWithinACycleIsMissed` | naukri_server/agent.py:724-725 | a fingerprint that moves between the two readings of one cycle is never held back, and the next cycle submits under it unreviewed |
| `PolicyGate.PolicyState.Act` | naukri_server/agent.py:711-872 | the mode, the submission and the new state file of a cycle |
| `PolicyGate.PolicyState.Decide` | naukri_server/agent.py:200-240 | the effective mode and whether it was downgraded |
| `ConfigOverlay.PutThenDig` | naukri_server/agent.py:342-355 | a path that was set reads back its value, whatever was in the way |
| `ConfigOverlay.PutThenDigBelow` | naukri_server/agent.py:342-355 | below it the tree is the new value |
| `ConfigOverlay.PutLeavesTheRest` | naukri_server/agent.py:342-355 | a path that neither leads through it nor is led through is unchanged |
| `ConfigOverlay.PutsCommute` | naukri_server/agent.py:342-355 | two such settings commute |
| `ConfigOverlay.ApartExactlyWhen` | naukri_server/agent.py:266-272 | apart means that neither path is a beginning of the other |
| `ConfigOverlay.OrderDoesNotMatter` | naukri_server/agent.py:342-355 | any two orders of the same settings give the same tree |
| `ConfigOverlay.OverlayReadsBack` | naukri_server/agent.py:342-355 | every setting of an overlay reads back |
| `ConfigOverlay.TheOverlayDecidesItsKeysOnly` | naukri_server/agent.py:254-272 | each of the six keys reads as in the file if that has a value there which is not the shipped one, and not an empty list of searches; otherwise as before |
| `ConfigOverlay.AgentConfigOverlay` | naukri_server/agent.py:323-339 | the loop over the six keys collects exactly the decided ones |
| `ConfigOverlay.ApplyOverlay` | naukri_server/agent.py:342-355 | the loop over the settings |
| `ConfigOverlay.ValidateAgentConfig` | naukri_server/domain/agent.py:151-179 | the errors as messages, in order, or that validation raises |
| `ConfigOverlay.ValidExactlyWhen` | naukri_server/domain/agent.py:151-179 | no error is found exactly in the sane configurations |
| `ConfigOverlay.TheErrorsAreTheirCauses` | naukri_server/domain/agent.py:151-179 | every error of the validator has its cause and every cause its error, and it raises exactly when a search or the quiet hours are no object or an hour asked for is no number |
| `ConfigOverlay.LoadAgentConfig` | naukri_server/agent.py:402-424 | the base or the whole overlay, by comparing the errors one by one |
| `ConfigOverlay.LoadingNeverMakesItWorse` | naukri_server/agent.py:402-424 | what is loaded is the base or the whole overlay, has no error the base did not have, and is sane exactly when the base is or the overlay makes it so |
| `Retention.NoIdIsLost` | naukri_server/database.py:541-588 | over any interleaving of upserts and purges the ids on record, live or archived, are exactly those of the start and those upserted |
| `Retention.UndisturbedPurgeIsThePreview` | naukri_server/database.py:520-538 | an undisturbed purge removes exactly the rows the preview lists, archives each as it was so that putting them back restores the table, and leaves nothing for a second one |
| `Retention.AnUpsertInBetweenIsOverrun` | naukri_server/database.py:559-588 | an upsert between the two transactions is lost: the row goes although its date is now unknown |
| `Retention.NextKeepsInv` | naukri_server/database.py:541-588 | what a purge has read stays on record, and a live row not upserted since is one that it read |
| `Retention.ApplicationStore.UpsertApplications` | naukri_server/database.py:366-389 | the rows in order; apply time and source kept, a blob never replaced by nothing |
| `Retention.UpsertKeepsTheOrigin` | naukri_server/database.py:338-347 | an upsert never changes when and where an application on record was made, and never empties its blob |
| `Retention.UpsertTakesTheLast` | naukri_server/database.py:338-347 | the other columns are those of the last row given for the id, and so is the blob if it has one; a new id gets the row as it is |
| `Retention.BeforeExactlyWhen` | naukri_server/database.py:520-538 | one date precedes another exactly when they agree up to a point where it ends or has the smaller character |
| `Retention.ApplicationStore.ListPurgeable` | naukri_server/database.py:520-538 | exactly the rows of the preview, in whatever order the table lists them |
| `Retention.ApplicationStore.ArchiveAndDelete` | naukri_server/database.py:565-588 | every chosen row archived and removed, nothing else changed |
| `ConfigOverlay.AnUnknownModeIsLoaded` | naukri_server/agent.py:402-404 | without an overlay the base is not validated, so an unknown mode is loaded |
| `ConfigOverlay.ValidateSearches` | naukri_server/domain/agent.py:166-172 | the errors of the searches in order, or that one that is not an object raises |
| `ConfigOverlay.OverlayLeavesTheRest` | naukri_server/agent.py:342-355 | a path apart from every setting is unchanged by the whole overlay |
| `ConfigOverlay.Overlay` | naukri_server/agent.py:323-339 | the overlay holds every decided key with the file's value and no other |
| `ConfigOverlay.TheSixKeysAreApart` | naukri_server/agent.py:254-261 | the six keys are apart from each other |
| `AgentCycle.Screen` | naukri_server/agent.py:572-684 | the inner loop extends the kept candidates and the decisions by one search's jobs |
| `AgentCycle.JudgeOne` | naukri_server/agent.py:575-671 | the four questions in their order |
| `AgentCycle.MinFit` | naukri_server/agent.py:491-497 | the agent-wide threshold is the least number below neither the floor nor the configured one, if that converts, else the default |
| `AgentCycle.SearchMinFit` | naukri_server/agent.py:547-550 | a search's threshold is the least number below neither the floor nor its own setting, if that converts |
| `AgentCycle.PerSearchLimit` | naukri_server/agent.py:517-530 | the page size is clamped to 1 to 100 |
| `AgentCycle.Reach` | naukri_server/agent.py:798-842 | where the act loop ends and why |
| `AgentCycle.TheLoopEndsWhere` | naukri_server/agent.py:798-842 | the loop ends before the first candidate at which the switch is tripped, or after the first submission halted by a block or raising without a record |
| `AgentCycle.CountAppliedCounts` | naukri_server/agent.py:820-824 | the number applied is that of the submissions reported as applied |
| `Sagas.First` | naukri_server/sagas.py:82-82 | the lookup by name finds the first step of that name |
| `Sagas.FirstFailure` | naukri_server/sagas.py:64-79 | the loop stops at the first failing step |
| `Sagas.SagaExecutor.FindStep` | naukri_server/sagas.py:82-82 | the search loop finds the first step of that name |
| `Sagas.SagaExecutor.AddStep` | naukri_server/sagas.py:47-50 | a step is appended |
| `ApiClients.LastAttempt` | naukri_server/api.py:302-516 | the attempt at which a call ends, never beyond max(1, retries) |
| `ApiClientObject.ApiClient.CanExecute` | naukri_server/api.py:306-309 | the call is counted and the breaker asked once |
| `ApiClientObject.ApiClient.RetryOrGiveUp` | naukri_server/api.py:505-516 | a transport error is retried while attempts are left, else recorded as one failure |
| `ApiClientObject.ApiClient.Answer` | naukri_server/api.py:379-504 | a status that is no success: what is counted, whether another attempt follows and what the caller gets |
| `ApiClientObject.ApiClient.AnswerBotCheck` | naukri_server/api.py:428-475 | one refresh and one retry, then a failure |
| `Blocklist.FirstHit` | naukri_server/domain/agent.py:38-43 | the first pattern that occurs |
| `Retention.ApplicationStore.InsertOrReplace` | naukri_server/database.py:574-578 | every chosen row is archived under its id, replacing an older copy |
| `Retention.ApplicationStore.DeleteRows` | naukri_server/database.py:579-582 | exactly the chosen ids are deleted |
| `Retention.InsertRowsArchives` | naukri_server/database.py:574-578 | inserting row by row archives all of them and touches no other id |
| `BlobSalvage.CutEntries` | naukri_server/scheduler.py:98-130 | the same for the members of an open list or dict |
| `Scanner.FeedQuote` | naukri_server/scheduler.py:98-120 | a printed string never moves the stack or the cut, and a cut inside it ends inside it |
| `ScheduleRuns.Latest` | naukri_server/database.py:1766-1777 | the latest start on record, if there is any |
| `ScheduleRuns.Surviving` | naukri_server/database.py:1624-1625 | exactly the rows whose UTC date is not before the cutoff's |
| `ScheduleRuns.SurvivesFromMidnight` | naukri_server/database.py:1624-1625 | a row survives exactly when it is not from before midnight UTC of the day of the cutoff |
| `PagePoolObject.PagePool.OutstandingLeases` | naukri_server/browser.py:580-582 | checkouts minus returns |
| `PagePoolObject.PagePool.SortIdle` | naukri_server/browser.py:820-923 | the idle pages by age |
| `PagePoolObject.PagePool.Drain` | naukri_server/browser.py:820-923 | the queue is emptied in order |
| `RateLimiting.RateLimiter.Prune` | naukri_server/resilience.py:87-87 | the pruned list still covers the whole history |
| `PolicyGate.PolicyState.Record` | naukri_server/agent.py:869-872 | a write replaces the current key only |
| `ApiClientObject.ApiClient.Succeed` | naukri_server/api.py:376-377 | a success is counted once and the breaker hears of it once |
| `ApiClientObject.ApiClient.Fail` | naukri_server/api.py:502-503 | a failure is counted once and the breaker hears of it once |
| `Retention.CommitFollowsItsReading` | naukri_server/database.py:541-588 | at any commit of any run a live row goes exactly when the purge listed it at its reading; if not upserted since, exactly when the preview lists it now, and it is archived as it is |
| `Retention.PreviewIsDeletedExactlyWhen` | naukri_server/database.py:520-588 | a commit removes exactly the rows the preview lists on the same table if and only if no row has been upserted since the reading so that the preview would judge it otherwise |
| `Retention.UnknownDatesAreKeptExactlyWhen` | naukri_server/database.py:541-588 | no row of unknown apply date is deleted if and only if none has lost, by an upsert since the reading, the date it was listed for |
| `PolicyGate.ReviewedExactlyWhen` | naukri_server/agent.py:711-872 | over any cycles, with any modes and readings: a list is put up under a policy before anything is submitted under it if and only if every cycle let through comes after one that saw that policy, had candidates, was not a dry run and got past the place where a list is stored |
| `PolicyGate.SomeListWasPutUp` | naukri_server/agent.py:744-790 | such a cycle put its list up, or an earlier one did |
| `PolicyGate.LetThroughSubmits` | naukri_server/agent.py:200-240 | what is let through, in terms of the recorded history, is what submits |
| `KillSwitches.HaltedThroughoutExactlyWhen` | naukri_server/kill_switch.py:135-164 | over any run without a reset a halted switch is halted at every point if and only if no restart finds anything but a halting file |
| `ApiClients.ProbesAreNotCounted` | naukri_server/api.py:100-108 | once a caller is admitted, any number of further ones are, until a failure is reported |
| `AgentCycle.TheRecordStaysWithinTheDay` | naukri_server/agent.py:447-476 | over a day of cycles the count on record never passes the maximum or where it began, and what was submitted is what is on record and what is not |
| `AgentCycle.NextCycleStaysWithinExactlyWhen` | naukri_server/agent.py:447-476 | the day is sure to stay within its maximum through the next cycle, whatever that one finds and however it goes, if and only if every submission so far is on record |
| `AgentCycle.NothingMissedExactlyWhen` | naukri_server/agent.py:447-476 | nothing submitted is missing from the record exactly when each cycle had each of its submissions counted |
| `AgentCycle.UnrecordedUsesTheQuota` | naukri_server/agent.py:447-708 | a search that finds as many distinct eligible jobs as are left has them all submitted |
| `AgentCycle.TwoOnADayOfOne` | naukri_server/agent.py:447-476 | a maximum of one a day, and two cycles whose submission leaves no record: two are submitted |
| `AgentCycle.CycleStaysWithin` | naukri_server/agent.py:447-476 | a cycle's submissions fit in what the record leaves |
| `AgentCycle.NothingRecordedIsNoBound` | naukri_server/agent.py:447-476 | if nothing is recorded a day can pass any number |
| `Sagas.ARerunUndoesTheFirstRunAgain` | naukri_server/sagas.py:37-110 | a failed executor run again undoes the second run's steps and then the first run's once more |
| `TokenRefresh.TokenManager.JoinCookies` | naukri_server/browser.py:105-105 | the header names every cookie in order |
| `TokenRefresh.FirstToken` | naukri_server/browser.py:106-112 | the first cookie called `nauk_at` |
| `TokenRefresh.TheTokenIsTheFirst` | naukri_server/browser.py:106-112 | the token is the whole value of the first cookie of that name, and there is none if that is empty |
| `TokenRefresh.HeadersJoin` | naukri_server/browser.py:105-105 | the header is every cookie as name and value, in order, with a separator between any two |
| `Watchdogs.BrowserWatchdog.Recovered` | naukri_server/browser_watchdog.py:68-71 | a healthy probe ends the outage |
| `PoolProtocol.RevokeKeepsInv` | naukri_server/browser.py:743-751 | a task cancelled with its permit already given returns it |
| `StorageLaws.WitnessReduced` | naukri_server/scheduler.py:223-236 | what pass 1 makes of that result |
| `StorageLaws.WitnessText` | naukri_server/scheduler.py:42-47 | the first 300 characters of its text in Python |

## Left out

- Playwright, aiohttp, SQLite, files and processes: only their effects are kept (a page created or not, a
  status, a table as a map, a write that succeeded or not).
- `jobcore`: the fit score, the floor constant, the policy fingerprint and `_same_value` are parameters, and
  the approval test is "the current fingerprint differs from the last one recorded". Without a fingerprint,
  or without `jobcore`, the gate lets `auto` through; the lemmas about it ask for a fingerprint.
- JsonRoundTrip.RoundTrip: unpaired surrogates (a Dafny `char` cannot hold one), dict keys that are not
  strings, circular structures and the recursion limit are outside the value type.
- JsonRoundTrip.StringRoundTrip: strings with unpaired surrogates are outside the type `string`.
- Scanner.AcceptedIsBalanced: the reader refuses unpaired surrogate escapes, which `json.loads` accepts, and
  reads a number token as the longest run of number characters.
- Scheduler: several tasks in one bucket share nothing but their names, so runs follow one task. `run_now`
  starts are in the runs but not counted as scheduled ones. The first wake's 45-second grace is not modelled.
  Hours outside 0 to 23 make `replace` raise and are outside `Hour`. Instants are whole microseconds.
- Page pool: `park` is one step taken when no lease is outstanding, which is what its caller checks;
  `close_all` awaits inside its loop, so a checkout beginning in that loop is not modelled. The pool's own
  circuit only refuses checkouts and skips sweeps. A browser stopped with leases outstanding abandons the
  pool object.
- Page pool fields: the idle queue and the list of pages are sequences that the methods reassign.
- Token refresh: the second cookie write and the state export are part of reading the cookies. What a caller
  finally returns, after the export, is not followed.
- AgentCycle.TheRecordStaysWithinTheDay: applications recorded by other tools during the day, and the
  difference between the day of the record and the day in India, are not in the run.
- Kill switch: the conversion of the file's fields is taken as done (`Record` holds the converted values).
- API client: the block-state classifier and its counters, delays and backoff, headers, the page pool inside
  a refresh. An exception of another kind than a transport error before anything is recorded is `Breaks`.
- Saga: step results, timings and the state dictionary's copies in the report; a time-out is a failed step.
- Agent: a fit score of `null` is taken as 0, event and notification texts, the observe and learn steps
  beyond the quota, and quiet hours. An exception in a search ends the cycle before anything is submitted
  and is not modelled. A candidate's stored row need not stay `apply`: a later duplicate replaces it.
- ApplyOverlay: `_apply_overlay` walks down and assigns in nested dictionaries of a deep copy; here `Put`
  rebuilds the path, so aliasing inside the copy is not captured. The copy through JSON is the identity by
  `JsonRoundTrip.RoundTrip`.
- ConfigOverlay: Python's `str` of a refused mode is a parameter. Reading `agent_config.json` and merging it
  with the defaults give the base; a stored value that is not an object raises there.
- Retention: the date parser is a parameter, the overwritten columns are one field, rows without an id are
  outside the model, and a purge that fails rolls back.
- Watchdog: `_handle_failure` is also called by the health scheduler, which is outside the monitor loop.
- Clocks are monotone within a process; floating-point rounding, jitter and think time are not modelled.
- Locks between processes, OAuth, prompts, resources, dashboards, event subscribers, staleness and priority
  scoring, paging, validators of tool arguments, block-state markers, and the sweep and repair scripts:
  plumbing, or settled by reading one function.
