# iPhone 17 pickup checker: a Dafny model of its three services

The system polls Apple's pickup-availability API for a list of iPhone variants at a few
Singapore Apple Stores. It merges the answers into one snapshot per store. It sends an SMS
when the variant the user wants newly appears at a store. A cron-style scheduler runs the
check at a fixed interval. Three services make up the core:

- `AppleStoreChecker` (`availability.dfy`, `store_checker.dfy`). It parses each variant's
  API answer and merges the answers into a snapshot. When the API reports no store at
  all, it falls back to an all-unavailable snapshot. It works out which stores newly list
  the preferred SKU and asks the SMS service to notify them. It keeps the snapshot and a
  history of at most 100 checks, newest first.
- `TwilioService` (`notifications.dfy`). Its gate allows an SMS only under a daily cap,
  which resets when the local calendar day changes, and outside a per-store cooldown. A
  delivered SMS records the time for its store and is counted.
- `Scheduler` (`scheduler.dfy`). It turns the interval into a cron expression. Start,
  stop, pause, resume and interval changes act on the job. One busy flag is shared by
  scheduled ticks and manual "check now" requests, so no two checks overlap.

`common.dfy` holds decimal rendering of numbers, `includes` and `startsWith`.
`ordered_map.dfy` models a JavaScript object keyed by strings that are not array
indices such as "669": such keys keep their first-insertion order, and assigning to an existing key replaces its value in place.

Things outside the program become inputs:

- Each variant's HTTP request is a `VariantQuery`: the parsed response, or `None` when
  the request threw.
- Each SMS attempt gets a `SendEnv`: the time of the gate check, the time the transport
  returned, and whether it delivered.
- The local calendar day of a time is a function `dayOf` in the notifier configuration.
- Clock readings are integer milliseconds, passed as parameters.

JavaScript runs one callback at a time, so a check in the scheduler is split in two. One
step runs up to the first `await`; the other is the `finally` block. Every interleaving
is then a sequence of `Event`s (`Scheduling.Run`).

The classes `TwilioService`, `Scheduler` and `AppleStoreChecker` hold the fields the
source updates in place. Each method's postcondition ties the new state to a pure
transition function of the old state. The lemmas state their properties about those
functions.

When the API reports some configured stores but not others, the snapshot holds only the
reported ones. Only the fallback snapshot holds every configured store
(`Availability.CheckedSnapshotSpec`).

## Model

| member | source | states |
|---|---|---|
| Common.NatToString | src/services/scheduler.js:27 | the rendering is a non-empty run of digits, one digit exactly for numbers below ten |
| Common.ParseNatToString | src/services/scheduler.js:27 | reading the rendered digits back gives the number |
| Common.NatToStringInjective | src/services/appleStoreChecker.js:134 | different counts render to different texts |
| Common.IntToString | src/services/scheduler.js:27 | non-negative numbers render without a sign; negative ones start with a minus sign |
| Common.Includes | src/services/appleStoreChecker.js:177 | true exactly when the substring occurs at some position |
| OrderedMaps.Empty | src/services/appleStoreChecker.js:85 | the empty object is well formed, with no keys |
| OrderedMaps.Put | src/services/appleStoreChecker.js:175 | assignment keeps the map well formed; an existing key keeps its place; a new key goes last |
| OrderedMaps.KeysCardinality | src/services/twilioService.js:153 | `Object.entries` lists each stored key once |
| Availability.GetStoreAddress | src/services/appleStoreChecker.js:344-351 | a non-empty address exactly for the three known stores, with the fixed address for each |
| Availability.ParseStores | src/services/appleStoreChecker.js:169-185 | the parsed map is well formed and holds configured stores only |
| Availability.ParseAPIResponse | src/services/appleStoreChecker.js:162-191 | the parsed answer is a well-formed map |
| Availability.ParseAPIResponseSpec | src/services/appleStoreChecker.js:167-183 | a store is parsed exactly when it is configured and the answer mentions it; its entry comes from its last record; it is available exactly when the display says "available" or the title contains "Available" |
| Availability.LastIndexOf | src/services/appleStoreChecker.js:169-183 | the position of the last record naming a store, or -1 exactly when no record names it |
| Availability.ParseStoresSpec | src/services/appleStoreChecker.js:169-185 | a store is in the parsed map exactly when it is configured and some record names it; its entry is built from the last such record |
| Availability.Unavailable | src/services/appleStoreChecker.js:114-123 | a first-seen store is unavailable, lists no variant and says "Not yet available for pickup" |
| Availability.CheckViaAPI | src/services/appleStoreChecker.js:83-157 | succeeds exactly when the merged snapshot has some store, and then returns that snapshot |
| Availability.MergeVariant | src/services/appleStoreChecker.js:113-136 | the in-place merge of one variant's answer equals merging its stores one by one |
| Availability.MergeStores | src/services/appleStoreChecker.js:113-136 | merging stores keeps the snapshot well formed |
| Availability.MergeStoresKeys | src/services/appleStoreChecker.js:113-123 | after merging, a store has an entry exactly when it had one before or was merged |
| Availability.MergeStoresSpec | src/services/appleStoreChecker.js:117-134 | each merged store's entry is its previous entry (or the unavailable one) with the variant absorbed |
| Availability.MergeStoresOthers | src/services/appleStoreChecker.js:113-136 | a store not merged keeps its entry |
| Availability.MergeQuerySpec | src/services/appleStoreChecker.js:109-136 | a usable answer changes exactly the stores it reports; a failed request or a missing body changes nothing |
| Availability.MergeAllSpec | src/services/appleStoreChecker.js:89-142 | the snapshot holds exactly the stores some usable answer mentions; each lists the variants offered there in catalogue order and is available exactly when that list is non-empty |
| Availability.MergedEntriesConsistent | src/services/appleStoreChecker.js:119-134 | in a merged entry, available means some variant is listed, and the message gives the count or says "Not yet available for pickup" |
| Availability.UnusableQueryIgnored | src/services/appleStoreChecker.js:109-141 | a variant whose request failed or has no body leaves the snapshot as the other variants make it |
| Availability.CheckSucceedsIffMentioned | src/services/appleStoreChecker.js:144-151 | the API check succeeds exactly when some usable answer mentions a configured store |
| Availability.AllUnavailable | src/services/appleStoreChecker.js:50-60 | the fallback snapshot is well formed |
| Availability.AllUnavailableSpec | src/services/appleStoreChecker.js:50-60 | the fallback snapshot holds exactly the configured stores, each with the unavailable entry |
| Availability.UnavailableSnapshot | src/services/appleStoreChecker.js:50-60 | the loop builds the fallback snapshot |
| Availability.CheckedSnapshot | src/services/appleStoreChecker.js:41-63 | the snapshot handed to the processing step is well formed |
| Availability.CheckedSnapshotSpec | src/services/appleStoreChecker.js:41-63 | if some store is reported, the snapshot holds exactly the reported stores with their merged entries; otherwise it holds every configured store, unavailable |
| Availability.AlertStores | src/services/appleStoreChecker.js:359-374 | no more attempts than stores walked |
| Availability.AlertStoresSpec | src/services/appleStoreChecker.js:359-374 | a store gets an attempt exactly when it is walked, has an entry and newly lists the preferred SKU; stores walked once get at most one attempt |
| Availability.AlertStoresStep | src/services/appleStoreChecker.js:359-374 | one more store adds an attempt exactly when it newly lists the preferred SKU |
| Availability.AtMostOneAlertPerStore | src/services/appleStoreChecker.js:359-391 | one processing pass never attempts two notifications for the same store, and attempts one for each newly listing store |
| Availability.NoAlertWithoutPreferredTransition | src/services/appleStoreChecker.js:370-374 | no alert when the store already listed the SKU, or does not list it now, even if other variants appeared |
| Availability.NothingNewNoAlert | src/services/appleStoreChecker.js:374 | when no store newly lists the SKU, no attempt is made |
| Availability.RepeatedSnapshotAlertsNothing | src/services/appleStoreChecker.js:368-400 | processing the same snapshot again sends nothing |
| Availability.UnavailableSnapshotAlertsNothing | src/services/appleStoreChecker.js:50-62 | the fallback snapshot never triggers an alert |
| Availability.TwoStoreAlert | src/services/appleStoreChecker.js:359-391 | of two stores, only the one that newly lists the SKU is alerted |
| Availability.AlertExample | src/services/appleStoreChecker.js:368-391 | Orchard Road newly offering the preferred SKU alerts; Marina Bay Sands offering only another variant does not |
| Availability.PushHistory | src/services/appleStoreChecker.js:406-412 | the new check goes first, older ones keep their order, and the length is capped at 100 |
| Availability.PushAllNewestFirst | src/services/appleStoreChecker.js:406-412 | after any series of checks the history is the newest checks, newest first, then the older history, cut at 100 |
| Availability.HistoryAfter150Checks | src/services/appleStoreChecker.js:408-411 | 150 checks leave exactly the 100 newest, newest first |
| Availability.Reverse | src/services/appleStoreChecker.js:407 | reverses the order of the checks |
| Notifications.Rollover | src/services/twilioService.js:33-38 | on a new calendar day the count restarts at 0 and the reset time becomes now; on the same day nothing changes |
| Notifications.ShouldSend | src/services/twilioService.js:31-60 | denies at or above the daily cap and while the store cools down; allows otherwise; the state is the rolled-over one |
| Notifications.Notify | src/services/twilioService.js:65-99 | without a client nothing happens; a send succeeds exactly when the gate allows and the transport delivers; success records the store's time and counts it; the cap invariant holds; other stores' records are untouched |
| Notifications.NotifyAll | src/services/twilioService.js:65-99 | a series of attempts delivers at most one SMS per attempt and keeps the cap invariant |
| Notifications.NotifyAllStep | src/services/twilioService.js:65-99 | one more attempt runs on the state the earlier attempts left |
| Notifications.SameDayDeliveriesBounded | src/services/twilioService.js:40-44 | within one day the count equals the deliveries, and no series delivers more than the cap |
| Notifications.OtherStoresKeepTheirRecord | src/services/twilioService.js:47-57 | attempts for other stores never change a store's cooldown record |
| Notifications.NeverSentOnlyCapLimits | src/services/twilioService.js:46-48 | a store with no recorded SMS is limited only by the daily cap |
| Notifications.ThirdSameDaySendDenied | src/services/twilioService.js:40-44 | with a cap of two, a third same-day attempt is denied |
| Notifications.CooldownExample | src/services/twilioService.js:46-57 | with a 30-minute cooldown, a retry after 10 minutes is denied and one after 31 minutes is allowed |
| Notifications.TwilioService.constructor | src/services/twilioService.js:6-13 | the count starts at 0, the reset time is now, and no store has a record |
| Notifications.TwilioService.ShouldSendNotification | src/services/twilioService.js:31-60 | the answer and the new state are those of the gate |
| Notifications.TwilioService.SendAvailabilityNotification | src/services/twilioService.js:65-99 | the result and the new state are those of one attempt |
| Notifications.StatsOf | src/services/twilioService.js:148-159 | the count, cap and cooldown, and one entry per recorded store in record order, with its time and display name |
| Notifications.StatsListEachNotifiedStoreOnce | src/services/twilioService.js:153-157 | the stats list every store with a record, and each only once |
| Notifications.TwilioService.GetStats | src/services/twilioService.js:148-159 | reports `StatsOf` the current state |
| Scheduling.CronExpressionStep | src/services/scheduler.js:26-27 | the minute field's step is floor(interval / 60000), and the expression is "* * * * *" exactly for one minute |
| Scheduling.BeginImmediate | src/services/scheduler.js:74-81 | while busy, the answer is "Check already in progress" and nothing changes; otherwise the busy flag is raised |
| Scheduling.CompleteImmediate | src/services/scheduler.js:83-91 | the busy flag is lowered whatever happened; the response is successful exactly when the check did not fail |
| Scheduling.Tick | src/services/scheduler.js:33-42 | the timer fires only for a ticking job; while busy it is skipped; otherwise a check starts and is counted |
| Scheduling.CompleteTick | src/services/scheduler.js:48-50 | the busy flag is lowered |
| Scheduling.StartJob | src/services/scheduler.js:17-58 | a no-op when a job exists; otherwise a ticking job with the interval's expression, the start time set, and an immediate check in flight |
| Scheduling.StopJob | src/services/scheduler.js:63-69 | the job is gone and nothing else changes |
| Scheduling.PauseJob | src/services/scheduler.js:132-137 | the job stays but stops ticking |
| Scheduling.ResumeJob | src/services/scheduler.js:142-147 | the job ticks again |
| Scheduling.Status | src/services/scheduler.js:97-107 | `running` means a job exists, paused or not; uptime counts from the start time, or is 0 |
| Scheduling.UpdateIntervalEffect | src/services/scheduler.js:112-127 | afterwards the status reports the new minutes; a job exists exactly when one did before, and it ticks with the new expression; the count is unchanged |
| Scheduling.PauseKeepsJobStopClearsIt | src/services/scheduler.js:132-147 | pausing keeps `running` true and stops the timer; resuming restores ticking; stopping makes `running` false |
| Scheduling.BusyStepIsInert | src/services/scheduler.js:34-37 | while a check runs, no event other than its completion starts or counts another check |
| Scheduling.BusyRunIsInert | src/services/scheduler.js:74-78 | the same over any series of events with no completion |
| Scheduling.CountOnlyTicks | src/services/scheduler.js:39-40 | the check count never decreases and rises by at most one per scheduled tick |
| Scheduling.Scheduler.constructor | src/services/scheduler.js:7-12 | no job, not busy, count 0, no start time |
| Scheduling.Scheduler.Start | src/services/scheduler.js:17-58 | the new state is that of `StartJob` |
| Scheduling.Scheduler.ScheduledTick | src/services/scheduler.js:33-42 | the outcome and the new state are those of `Tick` |
| Scheduling.Scheduler.CompleteScheduledTick | src/services/scheduler.js:48-50 | the new state is that of `CompleteTick` |
| Scheduling.Scheduler.Stop | src/services/scheduler.js:63-69 | the new state is that of `StopJob` |
| Scheduling.Scheduler.BeginImmediateCheck | src/services/scheduler.js:74-81 | the answer and the new state are those of `BeginImmediate` |
| Scheduling.Scheduler.CompleteImmediateCheck | src/services/scheduler.js:83-91 | the response and the new state are those of `CompleteImmediate` |
| Scheduling.Scheduler.GetStatus | src/services/scheduler.js:97-107 | reports `Status` of the current state |
| Scheduling.Scheduler.UpdateInterval | src/services/scheduler.js:112-127 | the new state is that of a stop, an interval change and a restart when a job existed |
| Scheduling.Scheduler.Pause | src/services/scheduler.js:132-137 | the new state is that of `PauseJob` |
| Scheduling.Scheduler.Resume | src/services/scheduler.js:142-147 | the new state is that of `ResumeJob` |
| StoreChecker.StatusOf | src/services/appleStoreChecker.js:417-423 | the last-check time exists exactly when there is history and is the newest check's; the recent checks are the first ten of the history |
| StoreChecker.StatusAfterCheck | src/services/appleStoreChecker.js:406-423 | right after a check is recorded, the status reports it as the last check and the first recent check |
| StoreChecker.AppleStoreChecker.constructor | src/services/appleStoreChecker.js:9-13 | empty history and empty snapshot |
| StoreChecker.AppleStoreChecker.ProcessResults | src/services/appleStoreChecker.js:356-401 | the SMS service's new state is that of attempts, in key order, for exactly the stores that newly list the preferred SKU; the snapshot is replaced by the new one |
| StoreChecker.AppleStoreChecker.AddToHistory | src/services/appleStoreChecker.js:406-412 | the history becomes `PushHistory` of the old one |
| StoreChecker.AppleStoreChecker.CheckAvailability | src/services/appleStoreChecker.js:35-78 | the snapshot becomes the checked snapshot; the alerts are those of the transition from the old snapshot; the check is recorded with its duration |
| StoreChecker.AppleStoreChecker.GetStatus | src/services/appleStoreChecker.js:417-423 | reports `StatusOf` the history and snapshot |
| StoreChecker.FallbackCheckAlertsNothing | src/services/appleStoreChecker.js:45-62 | a check where the API reports no store alerts nobody, and every configured store becomes unavailable |
| StoreChecker.RecheckWithSameSnapshotAlertsNothing | src/services/appleStoreChecker.js:368-400 | a check that yields the same snapshot as the previous one sends no SMS |

## Left out

- Web scraping (`initBrowser`, `checkViaScraping`, `selectProductConfiguration`, `extractStoreAvailability`, `cleanup`): browser automation that `checkAvailability` never calls.
- The mock data generator: nothing in the core calls it.
- The axios request, its URL and headers: each variant's outcome is an input.
- Twilio client construction, `messages.create`, `formatNotificationMessage` and `sendTestMessage`: foreign calls and message text. The client's presence is a flag, and each delivery outcome is an input.
- Logging, and the `method` argument of `processResults`, which is only logged.
- node-cron's timing: when the timer fires is an input (`Tick` events).
- `Date`, `toDateString` and `toISOString`: times are integer milliseconds, and the calendar day is a function given as configuration.
- The HTTP routes and the environment loading of the configuration. Only the 1–60 minute bound on interval updates is used, in `UpdateIntervalEffect`.
- The default when no variant catalogue is configured: the list of variants to query is an input.
- Non-integer, `NaN` or negative values from `parseInt` for the cap and the cooldown: these are natural numbers here.
- A malformed API record that makes parsing throw part-way: the parser's `try/catch` path is not modelled. Every record is well formed.
- Exceptions escaping `processResults`: the SMS service catches its own errors, so the catch in `checkAvailability` is not modelled.
- Aliasing between the snapshot and the history records that share it: snapshots are values, and the code never mutates one after storing it.
- Scheduling.CronExpressionStep: speaks of the step of the minute field only. When the step does not divide 60, cron restarts the count at each hour (`*/7` leaves a 4-minute gap after :56), so the actual period is irregular; when the timer fires is an input here.
- Scheduling.UpdateIntervalEffect, Scheduling.Scheduler.UpdateInterval: minutes are whole numbers here. The HTTP route accepts any JSON number from 1 to 60, so a fractional value such as 1.5 sets a 90000 ms interval, reports 1 minute and schedules "* * * * *"; that case is not modelled.
- OrderedMaps.Put: always appends a new key. A JavaScript object lists canonical numeric keys such as "669" first, in ascending order, and assigning to "__proto__" creates no key, so store ids are assumed to be neither (Apple's store numbers have the "R" prefix). With numeric ids, the order of SMS attempts and of `getStats` entries could differ.
