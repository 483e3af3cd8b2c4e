# Verification of the case-review platform's core

This Dafny project models the parts of the repository whose correctness is hardest to see
from the code, and proves what they promise. `dafny verify dfyconfig.toml` checks all of it.

| component | modules |
|---|---|
| Event spine and live feed | `CaseMachine`, `CaseEvents`, `OutboxLoop`, `OutboxProtocol`, `Progress`, `ProgressFeed`, `UnpolledPage`, `PagePolls`, `PageFailures` |
| Legal deadlines | `CivilDates`, `WorkDays`, `Rule41`, `TrapChain`, `TrapClock`, `TrapLaws`, `Deadlines`, `BusinessCalendar` |
| Pricing | `PricingTime`, `Allowances`, `Credits`, `Promotions`, `PriceBook`, `Quote` |
| Guards and caches | `Flags`, `SignInGuards` |
| Logo alpha channel | `BrandLogo` |
| Counsel packet | `CounselPacket` |

**How the model is built.** What the program keeps as module variables, database rows or
arrays changed in place is a class or an array here (`CaseStore`, `Loop`, `FlagCache`,
`AlertGuard`, `RateLimiter`, the logo's `seen` and `alpha`); its loops are methods with
invariants, each proved equal to a function, and the laws are lemmas about those functions.
What is expressions and calls there is functions here. Two parts are state machines over
interleaved steps: the outbox with its page (append, claim, publish, commit, crash, deliver,
redeliver, begin a run, open the page, ask the server, receive its answer) and the flag cache
(reads, writes, invalidations and the separate steps of every load).

**Dates.** The deadline code computes on `YYYY-MM-DD` strings. `CivilDates` models those
strings, `Date.UTC` and `toISOString` as section 21.4.1 of ECMA-262 defines them, and proves
that on real dates of the years 100 to 9999 the strings, their arithmetic and their `<` are
plain day numbers. The other deadline modules then work on day numbers. Off the real dates the
two orders part, and the strings that are safe are characterised exactly
(`RoundTripIffCanonical`, `UnrealDatesMisorder`).

**Where a promise fails.** Seven properties do not hold of the code as it stands. Each has a
concrete counterexample and the exact condition under which it does hold:

- *The one-year count with overlapping writs.* Each writ's days are summed separately, so two
  pending writs pause a day twice and an expired year can come back (`OverlapRevives`). The
  count is right exactly when no day has two writs pending, or no day was free
  (`ElapsedIsFreeDays`). It falls overnight exactly as `ElapsedFallsExactly` says; an expired
  year stays expired exactly while the days the writs pend do not outnumber the days there
  are to spare (`StaysExpiredExactly`), and so as long as no later day has two writs pending
  (`ExpiredWhileSingle`).
- *The printed end of the federal window.* It is the first expired day exactly when every
  writ was filed before that day (`WindowEndDate`); a later writ moves the printed date
  (`LateWritMovesPrintedDate`).
- *A flag write with a load in flight.* Invalidation does not stop a running load, which may
  store what it read before (`LoadInFlightHidesWrite`). A setter writes one of the two tables;
  its invalidation keeps the write for good exactly when no running load has read that table
  before the write (`InvalidationIsExact`).
- *Two alike events.* The feed drops a message that projects to one it holds; without that
  rule redelivery would corrupt the timeline (`DedupIsNeeded`), but it also drops a second
  event that looks like an earlier one, and then the page shows a check the events have ended
  (`AlikeEventsPart`). The page holds every run event exactly when no two project alike
  (`DistinctKeptAll`), and shows the right timeline throughout exactly when the timeline
  showed each dropped event already (`AlikeEventsExactly`).
- *A poll that lags the stream.* A poll read before a message and received after it takes that
  message's event off a page that was right, and the page stays wrong when the next one comes
  (`LaggingPollLosesCheck`, `LaggingPollBreaks`). An answer puts the page right exactly when
  it misses no run event known by then and brings none of an older run (`AnswerExactly`).
- *A message of an older run.* A poll holds the latest run only, so a message of the run
  before, heard after it, is appended and can turn a finished check back into a running one
  (`OlderRunReopens`).
- *A run begun between two polls.* The page appends the new run's events to those of the run
  before, which the route no longer sends (`NewerRunKeepsOld`).

  The last three concern one promise: that the page holds what the checklist route sends. The
  page can only know of the rows it has heard or polled; `Moment` is what the route read after
  the last run event among them, or at its latest poll if that is later (`RouteAtIsLatest`;
  `CaughtUp` says when that is what the route reads now). A message keeps the page at its
  moment exactly when it is harmless, a condition on the rows (`DeliveryAfterPoll`,
  `StepStaysInStep`). With all run events unlike, the page is at its moment after every step
  of a run, polls, new runs and reloads included, exactly when it hears no event of an older
  run, none of a newer run while it holds events of the one before, and every answer is up to
  date (`InStepExactly`).

**Preconditions the laws carry.** One process publishes; row ids are in commit order, and the
rows created since a run began are those appended since; loads
of the flag cache take at most a given time; call times do not run back; sign-in attempts are
not cleared in between; state writs are pairwise disjoint where a lemma says `Disjoint`.

## Model

| member | source | states |
|---|---|---|
| CaseEvents.CaseStore.AppendCaseEvent | packages/database/events.ts:41-81 | event and case row are written together or not at all; each refusal with its reason, its whole new state otherwise |
| CaseEvents.CaseStore.PublishCaseEventOutbox | packages/database/events.ts:97-150 | claims the first unstamped rows in id order, publishes them in order and stamps exactly them; a failure after any number of publishes rolls back the stamps and not the messages; without one it publishes as many as the batch allows and are left |
| CaseEvents.TransactionIsProtocolRun | packages/database/events.ts:101-149 | the transaction is a run of the protocol's steps: a tick, its publishes, then commit or crash |
| CaseEvents.RoundStamps | packages/database/events.ts:118-148 | from a reachable state, a tick without a fault stamps the next rows, as many as the batch allows and are left |
| CaseEvents.OutboxDrains | packages/database/events.ts:88-95 | from every reachable state with no transaction open, enough undisturbed ticks publish and stamp every row |
| CaseEvents.StoreFollowsCase | packages/database/events.ts:48-69 | on an existing case the store refuses and writes exactly what the single-case runs below do |
| CaseEvents.SlaStampIsFirstEntry | packages/database/events.ts:58-62 | in every run from DRAFT the SLA stamp is the instant of the first accepted entry to DOCS_COMPLETE, and there is none before |
| CaseEvents.StampNeverChanges | packages/database/events.ts:58-62 | once set, no accepted or refused event changes the stamp |
| CaseEvents.PipelineIsStamped | packages/case-lifecycle/machine.ts:43-58 | in every run, a case from DOCS_COMPLETE through DELIVERED carries the stamp |
| CaseEvents.RouteBehind | packages/case-lifecycle/machine.ts:43-67 | the statuses entered since the last AWAITING_DOCS contain, in order, the route each status implies |
| CaseEvents.ReadyWasReviewed | packages/case-lifecycle/machine.ts:43-67 | a READY case has passed DOCS_COMPLETE, ANALYZING and QA_REVIEW, in that order, since it last awaited documents |
| CaseEvents.DeletedForever | packages/case-lifecycle/machine.ts:60-71 | DELETED is absorbing: whatever follows, no status is entered again |
| CaseEvents.HoldsAreOrthogonal | packages/database/events.ts:64-65 | a hold change moves neither status nor stamp, and no hold but the one it names |
| CaseEvents.HoldsAreSetAndCleared | packages/database/events.ts:64-65 | a hold to be set ends set, one to be cleared clear; of both at once, clear |
| CaseMachine.EnteredFrom | packages/case-lifecycle/machine.ts:43-71 | by target, the only statuses each can be entered from; refunds and deletions exactly |
| CaseMachine.CanBeDelivered | packages/case-lifecycle/machine.ts:43-58 | every status neither refunded nor deleted has a legal path to DELIVERED |
| OutboxLoop.Loop.constructor | packages/database/events.ts:156-178 | the loop starts with one transaction open |
| OutboxLoop.Loop.Tick | packages/database/events.ts:164-166 | a tick opens a transaction exactly when neither stopped nor running |
| OutboxLoop.Loop.TimerFires | packages/database/events.ts:164-166 | a timer fires once and its tick runs |
| OutboxLoop.Loop.Returned | packages/database/events.ts:167-175 | success and failure both end the run and set one next tick, unless stopped |
| OutboxLoop.Loop.Stop | packages/database/events.ts:179-181 | the stop flag, and nothing else, is set |
| OutboxLoop.LoopStaysSingle | packages/database/events.ts:156-182 | in every run there is one transaction open or one tick due until the stop: the loop neither doubles nor dies |
| OutboxLoop.BeginsOnlyWhenClosed | packages/database/events.ts:164-166 | a transaction begins only when none is open, and only a stop turns a tick away: the overlap guard is never what does |
| OutboxLoop.StoppedStaysStopped | packages/database/events.ts:179-181 | after a stop no transaction is ever opened again |
| OutboxLoop.NextTick | packages/database/events.ts:170-174 | the next tick comes at once after rows were published, after the idle time otherwise |
| UnpolledPage.FeedIsExactlyOnce | packages/database/events.ts:97-150 | under any interleaving of appends, partial batches, crashes after publishing and redeliveries, the run events and timeline of a page that has not polled are those of exactly-once, in-order delivery of a prefix of the log |
| OutboxProtocol.StampedWasPublished | packages/database/events.ts:126-146 | stamped rows are a prefix of the log, all published, and all delivered once the channel is drained |
| OutboxProtocol.ClaimIsNext | packages/database/events.ts:118-123 | with a stamped prefix, a claim is the next rows, at most a batch |
| OutboxProtocol.ClaimSize | packages/database/events.ts:118-123 | a claim is as large as the lesser of the batch and the rows unstamped |
| OutboxProtocol.ClaimIsFirst | packages/database/events.ts:120-122 | the rows claimed are unstamped and in id order, and one left out comes after a full batch |
| OutboxProtocol.PageIsFeed | apps/web/lib/progress-feed.ts:73-140 | what the protocol's page does on a message and on an answer is what the feed's two reducers do |
| UnpolledPage.DistinctKeptAll | apps/web/lib/progress-feed.ts:114-118 | exactly-once delivery keeps every run event of the case if and only if no two of them project alike |
| UnpolledPage.AlikeEventsExactly | apps/web/lib/progress-feed.ts:114-118 | the page's timeline is that of the case's events after each of the first rows if and only if the timeline showed each of those dropped as a duplicate already |
| UnpolledPage.AlikeEventsPart | apps/web/lib/progress-feed.ts:114-118 | a second phase event like the first is dropped, and the page shows a running check the events have ended |
| UnpolledPage.UnpolledTimeline | apps/web/lib/progress-feed.ts:105-144 | in every run of a page that has not polled, its timeline is that of the case's events seen after every step if and only if every event dropped among those was shown already |
| PagePolls.RouteAtIsLatest | apps/api/src/routes/intake.ts:250-267 | what the moment's window is: the route's own when its last row has just been appended |
| PagePolls.CaughtUp | apps/api/src/routes/intake.ts:250-267 | when the page can know of every run event and no run has begun since, its moment's list is what the route sends now |
| PagePolls.DeliveryAfterPoll | apps/web/lib/progress-feed.ts:105-118 | in step, a message keeps the page at what the route sent at the latest moment it has news of if and only if it is no run event, or known and like one held, or the next row, unlike those held, and no event held is of an older run than it |
| PagePolls.StepStaysInStep | apps/web/lib/progress-feed.ts:105-144 | any step but an answer or a reload keeps the page in step if and only if the message it hears, if any, is harmless |
| PagePolls.HarmlessWhenUnlike | apps/api/src/routes/intake.ts:250-267 | with all run events unlike, a message does harm if and only if it is of an older run, or of a newer one while the page holds events of the one before |
| PagePolls.AnswerExactly | apps/web/lib/progress-feed.ts:73-91 | with all run events unlike, an answered poll puts the page in step, whatever it held, if and only if it misses no run event of the moment and brings none of an older run |
| PagePolls.PollPutsInStep | apps/web/lib/progress-feed.ts:73-91 | an answer that is the latest read, and read after every run event known, puts the page in step, alike events or not |
| PagePolls.InStepExactly | apps/api/src/routes/intake.ts:250-267 | in every run, from any state in step, polls, new runs and reloads included and all run events unlike: in step after every step if and only if no message is of an older run, or of a newer one while events of the one before are held, and every answer and reload is up to date |
| PagePolls.FeedTimelineIsServerTimeline | apps/api/src/routes/intake.ts:268 | a page in step shows the timeline the route folds at that moment |
| PagePolls.LaggingPollBreaks | apps/web/lib/progress-feed.ts:105-118 | a page out of step is out of step still after the next run event of the same run |
| PageFailures.LaggingPollLosesCheck | apps/web/lib/progress-feed.ts:73-91 | a run in which an answer takes an event off a page that was right, and the next message leaves it without a finished check |
| PageFailures.OlderRunReopens | apps/api/src/routes/intake.ts:250-267 | a run in which a message of the run before, heard after a poll of the new run, reopens a finished check |
| PageFailures.NewerRunKeepsOld | apps/api/src/routes/intake.ts:250-267 | a run in which a new run begins between two polls, and the page keeps a finished check the route no longer sends |
| Progress.AnalysisTimeline | packages/case-lifecycle/progress.ts:45-94 | the fold's timeline, and the finished screens in the order of the checks: each screen that some event completed, once |
| Progress.ChecksOrder | packages/case-lifecycle/progress.ts:62-86 | the checks stand in the order in which the events first mention them |
| Progress.ChecksSpec | packages/case-lifecycle/progress.ts:61-78 | each screen mentioned is listed once, and is finished if and only if some event completed it |
| Progress.StartSpec | packages/case-lifecycle/progress.ts:62-64 | a check's start is the time of the first event that begins it, and it has one only then |
| Progress.FinishSpec | packages/case-lifecycle/progress.ts:76-78 | a check's end is the time of the last event that completes it, and it has one only then |
| Progress.PhaseSpec | packages/case-lifecycle/progress.ts:55-81 | the phase shown is the last one announced that no phase, check or, for a batch, result has ended |
| Progress.TotalsSpec | packages/case-lifecycle/progress.ts:58-73 | the two totals are those of the last event that states them |
| Progress.RepeatChangesNothing | packages/case-lifecycle/progress.ts:52-83 | an event like an earlier one changes the timeline if and only if the timeline does not show what it says |
| Progress.NowCheckingSpec | packages/case-lifecycle/progress.ts:60-82 | the running check is the last one begun that no phase, later check or own completion has ended, with its start; and there is one only then |
| Progress.NowCheckingNumbers | packages/case-lifecycle/progress.ts:65-73 | the running check's numbers are those its event states, else sample 1 of 1 and its place among the checks mentioned |
| Progress.NamedChecks | packages/case-lifecycle/progress.ts:54-61 | no check has the empty name |
| Progress.PhaseNames | packages/case-lifecycle/progress.ts:56-57 | the three phases by name; any other value is none |
| Progress.ProjectionKeepsTimeline | packages/case-lifecycle/progress.ts:150-168 | folding the projected run events gives the timeline of the full stream |
| Progress.ProjectionExactly | packages/case-lifecycle/progress.ts:151-168 | the projection holds type, time and the strings and numbers of seven keys, and nothing else |
| Progress.RunEventsMove | apps/web/lib/progress-feed.ts:102 | the run event types are exactly those that can move a timeline |
| ProgressFeed.DeliveredTwice | apps/web/lib/progress-feed.ts:114-118 | a fact folded in twice is folded in once; pulses and unreadable messages leave the run events alone |
| ProgressFeed.DedupIsNeeded | packages/case-lifecycle/progress.ts:61-79 | the fold alone is not idempotent: a repeated event turns a finished check into a running one |
| ProgressFeed.OldServerChecks | apps/web/lib/progress-feed.ts:76-80 | from a server that sends finished screens only, the timeline shows exactly those as done |
| ProgressFeed.PollKeepsFresherSignal | apps/web/lib/progress-feed.ts:73-91 | a poll never takes the signal clock back, and only a fresh pulse no older than it replaces the live step |
| ProgressFeed.PollReplaces | apps/web/lib/progress-feed.ts:76-90 | what a poll sends replaces the page's, what it does not send the page keeps |
| ProgressFeed.FreshPulseShown | apps/web/lib/progress-feed.ts:74-84 | a pulse under two minutes old and no older than the last signal is shown |
| ProgressFeed.PulseMoves | apps/web/lib/progress-feed.ts:108-110 | a pulse moves step, phase and signal clock and nothing else |
| ProgressFeed.FactEndsStep | apps/web/lib/progress-feed.ts:119-137 | a fact never begins a step, and ends the one shown if and only if the stage changes or it completes that very check or document |
| ProgressFeed.DocumentSpec | apps/web/lib/progress-feed.ts:124-136 | the document in progress is the last begun that no end of a document or new stage has followed |
| CivilDates.YearStartIsDayFromYear | packages/case-lifecycle/deadlines.ts:36-40 | counting years one by one is the closed form of ECMA-262 |
| CivilDates.CivilBijection | packages/case-lifecycle/deadlines.ts:36-44 | calendar dates and day numbers are in an order-preserving bijection |
| CivilDates.NoonIsDayNumber | packages/case-lifecycle/deadlines.ts:42-44 | adding days in milliseconds from noon is adding to the day number, with the same range of valid time values |
| CivilDates.NoonsApart | packages/case-lifecycle/deadlines.ts:47-49 | the rounded quotient of two noons' distance is the days between |
| CivilDates.RoundTripIffCanonical | packages/case-lifecycle/deadlines.ts:36-44 | a shaped string survives adding zero days if and only if it spells a real date of the years 100 to 9999 |
| CivilDates.AddDaysIsAddition | packages/case-lifecycle/deadlines.ts:42-49 | addDays is addition of day numbers, and diffDays(d, addDays(d, n)) is n |
| CivilDates.DiffThenAdd | packages/case-lifecycle/deadlines.ts:42-49 | adding the difference of two dates to the first gives the second |
| CivilDates.AddDaysComposes | packages/case-lifecycle/deadlines.ts:42-44 | adding to the result of addDays is adding the sum, errors included |
| CivilDates.SpelledOnce | packages/case-lifecycle/deadlines.ts:42-44 | a real date is the spelling of one day only |
| CivilDates.StringOrderIsDayOrder | packages/case-lifecycle/trap/clock.ts:265-268 | the `<` and `===` on date strings the clock uses are those of days |
| CivilDates.UnrealDatesMisorder | packages/case-lifecycle/deadlines.ts:36-40 | off the real dates they are not: 2026-02-30 sorts before 2026-03-01 and names a later day |
| WorkDays.FirstWorkingIsLeast | packages/case-lifecycle/trap/rule-4-1.ts:108-119 | fourteen steps always reach a working day, and the search stops at the least one |
| WorkDays.Weekdays | packages/case-lifecycle/trap/rule-4-1.ts:79-90 | the weekdays follow one another from a Thursday, and weekends are the same two days of every seven |
| Rule41.LegalHolidayDates | packages/case-lifecycle/trap/rule-4-1.ts:41-77 | the table's day numbers are the dates of the source |
| Rule41.LegalHolidayIsDate | packages/case-lifecycle/trap/rule-4-1.ts:41-77 | a day is in the table if and only if it is one of those dates |
| Rule41.WeekendNotes | packages/case-lifecycle/trap/rule-4-1.ts:51-76 | the dates the table notes as Saturdays and Sundays are |
| Rule41.RollForward | packages/case-lifecycle/trap/rule-4-1.ts:108-119 | the least day on or after the input that is no weekend or holiday, rolled if and only if the input was one, with the first obstacle as reason |
| Rule41.RollIsLeast | packages/case-lifecycle/trap/rule-4-1.ts:108-119 | the guard of fourteen steps never cuts the roll short |
| Rule41.RollIsClosure | packages/case-lifecycle/trap/rule-4-1.ts:108-119 | rolling is monotone, extensive and idempotent |
| Rule41.DueGrows | packages/case-lifecycle/trap/rule-4-1.ts:137-141 | a longer period never ends earlier |
| Rule41.CoverageYears | packages/case-lifecycle/trap/rule-4-1.ts:36 | the coverage is exactly 2026 and 2027, and every listed holiday is in it |
| TrapChain.OneBasePerFamily | packages/case-lifecycle/trap/trap-chain.ts:130-423 | a family has exactly one base vector that applies in given modes |
| TrapChain.ReferencesPointBack | packages/case-lifecycle/trap/trap-chain.ts:130-423 | what a vector runs from comes earlier in its table and runs from an input; nothing optional can be extended |
| TrapChain.ReferencesStayInChain | packages/case-lifecycle/trap/clock.ts:143-148 | every chain that has a vector has what it runs from |
| TrapChain.ExtensionsExtendTheirFamily | packages/case-lifecycle/trap/trap-chain.ts:130-361 | an extension runs from the due date of its own family |
| TrapChain.TablesOrdered | packages/case-lifecycle/trap/clock.ts:143-148 | every chain keeps the table order, so one pass suffices |
| TrapChain.PdrChainIsFilter | packages/case-lifecycle/trap/clock.ts:145 | the PDR chain is the direct-appeal vectors flagged for it |
| TrapChain.WritListsAll | packages/case-lifecycle/trap/trap-chain.ts:365-423 | the writ's clock lists exactly the vectors of Article 11.07 |
| TrapChain.DirectAppealListsAll | packages/case-lifecycle/trap/trap-chain.ts:130-361 | the direct appeal's lists exactly the others |
| TrapChain.OtherClocks | packages/case-lifecycle/trap/clock.ts:143-174 | the PDR clock lists the steps after the court of appeals' judgment; the other vehicles run none |
| TrapClock.ComputeTrapClock | packages/case-lifecycle/trap/clock.ts:150-315 | the single pass with its two maps refines the direct specification that looks each step up on its own; next due and missed flag as specified |
| TrapClock.RunVector | packages/case-lifecycle/trap/clock.ts:210-293 | one loop body pushes the specified step and records the due date and base step the later vectors need |
| TrapClock.EarliestOpen | packages/case-lifecycle/trap/clock.ts:300-301 | the head of the stable sort: the first open step of earliest due date, none if none is open |
| TrapLaws.StepOrigin | packages/case-lifecycle/trap/clock.ts:205-294 | a step is listed if and only if a vector of the chain emits it |
| TrapLaws.OneBaseStepPerFamily | packages/case-lifecycle/trap/clock.ts:210-212 | at most one base step per family |
| TrapLaws.ExtensionOnlyWhileItMatters | packages/case-lifecycle/trap/clock.ts:214-218 | an extension step is listed if and only if its base step is, and is open, missed or filed late |
| TrapLaws.FamilyMissedExactly | packages/case-lifecycle/trap/clock.ts:303-306 | a jurisdictional family counts as missed if and only if it is unfiled past its due date or filed after its extension |
| TrapLaws.MissedExactly | packages/case-lifecycle/trap/clock.ts:303-306 | missedJurisdictional holds if and only if the notice of appeal or the petition for discretionary review is out of time under TRAP 26.2, 68.2 and their 15-day extensions, on the chains that list them |
| TrapLaws.MissedFromDates | packages/case-lifecycle/trap/clock.ts:176-306 | the flag from the dates given alone: sentencing or its fallback, a timely motion for new trial, a rehearing that counts, the rolled due dates and their extensions |
| TrapLaws.RehearingAgrees | packages/case-lifecycle/trap/clock.ts:193-203 | with motion and judgment known, a rehearing counts if and only if its own step is filed and not late |
| TrapLaws.RehearingKnown | packages/case-lifecycle/trap/clock.ts:193-203 | a denial or motion known counts unless the motion was late; with neither, none does |
| TrapLaws.BaseStepFromDates | packages/case-lifecycle/trap/clock.ts:205-293 | for every family, the step's raw and rolled due date, filing and status from the dates, by its act and days; only lapsed optional acts are left out |
| TrapLaws.NotYetExactly | packages/case-lifecycle/trap/clock.ts:245-256 | a step is not yet dated if and only if its trigger is unknown, and then says nothing else; else it is due on its raw date, rolled |
| TrapLaws.StepAdvances | packages/case-lifecycle/trap/clock.ts:262-271 | as today advances a step only goes from open to missed, or disappears if optional |
| TrapLaws.MissedForGood | packages/case-lifecycle/trap/clock.ts:303-306 | missedJurisdictional never returns to false |
| TrapLaws.NextDueAdvances | packages/case-lifecycle/trap/clock.ts:300-311 | nextDue is never in the past and never moves earlier or comes back |
| TrapLaws.TimelinessAgrees | packages/case-lifecycle/trap/clock.ts:186-192 | the clock's own new-trial timeliness is the verdict of the table's new-trial step |
| TrapLaws.TimelyMotionNeverHurts | packages/case-lifecycle/trap/trap-chain.ts:130-361 | a timely motion never brings the notice or record deadline forward |
| Deadlines.ComputeDeadlinePosture | packages/case-lifecycle/deadlines.ts:115-151 | the loop's sums give the posture of the specification function |
| Deadlines.RunsFromLastStage | packages/case-lifecycle/deadlines.ts:90-113 | with no writs, days elapse from the end of the latest stage reached, whatever the earlier ones say, by the clock's own periods |
| Deadlines.FinalityIsLastStage | packages/case-lifecycle/deadlines.ts:115-116 | with writs that day is still the finality reported |
| Deadlines.PostureInDays | packages/case-lifecycle/deadlines.ts:130-150 | the rest of the posture in days: remaining, expiry, tolling now, estimate, urgency, and when a window end is printed |
| Deadlines.SumCountsPausedDays | packages/case-lifecycle/deadlines.ts:118-128 | the clipped sums never undercount the paused days, and count them right if and only if no day has two writs pending |
| Deadlines.ElapsedIsFreeDays | packages/case-lifecycle/deadlines.ts:130-131 | daysElapsed is the day-by-day count of days with no writ pending if and only if no day has two, or none is free |
| Deadlines.DisjointElapsed | packages/case-lifecycle/deadlines.ts:118-131 | with disjoint writs the count is exact and the clamp at zero is never active |
| Deadlines.ElapsedMonotone | packages/case-lifecycle/deadlines.ts:118-133 | daysElapsed never falls and grows at most one a day; an expired year stays expired |
| Deadlines.ElapsedFallsExactly | packages/case-lifecycle/deadlines.ts:118-133 | with any writs, the elapsed days fall overnight if and only if two or more pended that day and some days had elapsed |
| Deadlines.ExpiredExactly | packages/case-lifecycle/deadlines.ts:118-133 | with any writs, expired if and only if the days since finality exceed the days the writs pend by 365 |
| Deadlines.StaysExpiredExactly | packages/case-lifecycle/deadlines.ts:118-133 | with any writs, an expired year stays expired to a given day if and only if in no stretch do the days the writs pend outnumber the days by more than there were to spare |
| Deadlines.ExpiredWhileSingle | packages/case-lifecycle/deadlines.ts:118-133 | an expired year stays expired as long as no later day has two writs pending, however earlier ones overlap |
| Deadlines.LateWritNeverRevives | packages/case-lifecycle/deadlines.ts:118-133 | a disjoint writ filed after expiry never revives the year |
| Deadlines.OverlapRevives | packages/case-lifecycle/deadlines.ts:120-128 | two overlapping writs do |
| Deadlines.FirstExpiredIsFirst | packages/case-lifecycle/deadlines.ts:130-133 | the posture is expired from the first day with 365 free days behind it on, and not before |
| Deadlines.WindowEnds | packages/case-lifecycle/deadlines.ts:130-133 | once every writ is disposed of there is such a day |
| Deadlines.WindowEndDate | packages/case-lifecycle/bottom-line.ts:56-67 | open or closed, the printed end is finality + 365 + tolled days, and is the first expired day if and only if every writ was filed before it |
| Deadlines.LateWritMovesPrintedDate | packages/case-lifecycle/bottom-line.ts:56-67 | a writ filed after the year ran out moves the printed end |
| BusinessCalendar.HolidayDates | packages/case-lifecycle/calendar.ts:15-28 | the set's day numbers are the dates of the source |
| BusinessCalendar.HolidayIsDate | packages/case-lifecycle/calendar.ts:15-28 | a day is in the set if and only if it is one of those dates |
| BusinessCalendar.AddBusinessDays | packages/case-lifecycle/calendar.ts:42-50 | ends for every start and count, at the count-th business day after the start |
| BusinessCalendar.BusinessDaysBetween | packages/case-lifecycle/calendar.ts:65-74 | the number of business days after the start up to the end |
| BusinessCalendar.NthCounts | packages/case-lifecycle/calendar.ts:42-74 | counting up to the n-th business day gives n, and n - 1 the day before |
| BusinessCalendar.AddCountAdjoint | packages/case-lifecycle/calendar.ts:42-74 | at least n business days lie up to e if and only if adding n lands on or before e |
| BusinessCalendar.NthAdditive | packages/case-lifecycle/calendar.ts:42-50 | adding is additive in the count |
| PricingTime.AddMonths | packages/case-lifecycle/pricing/time.ts:15-23 | the Date's step-by-step mutation gives the same day of the target month, clamped to its length, at the same time of day |
| PricingTime.YearLater | packages/case-lifecycle/pricing/time.ts:15-23 | twelve months on is 365 or 366 days later |
| Allowances.DecrementLaw | packages/case-lifecycle/pricing/allowances.ts:63-75 | covered if and only if in the period with some left; then one more is used, never past the grant |
| Allowances.PeriodsFollow | packages/case-lifecycle/pricing/allowances.ts:82-86 | each renewed period starts where an earlier one ended or after, with the grant whole |
| Allowances.PeriodsTile | packages/case-lifecycle/pricing/allowances.ts:82-86 | from the first start on every instant lies in exactly one renewed period |
| Allowances.AnnualPlansRenew | packages/case-lifecycle/pricing/allowances.ts:33-49 | the annual plans start such a chain; a pilot does not renew |
| Allowances.RenewsByTheYear | packages/case-lifecycle/pricing/allowances.ts:82-86 | a renewed period ends at the same time on the same civil day of the next year, clamped |
| Allowances.PlansGrant | packages/case-lifecycle/pricing/allowances.ts:33-49 | what each plan grants and for how long |
| Allowances.DecrementRefused | packages/case-lifecycle/pricing/allowances.ts:68-75 | each refusal exactly, and what is left then |
| Credits.ChosenIsFirst | packages/case-lifecycle/pricing/credits.ts:118-127 | the credit spent heads the sort: no covering credit comes before it |
| Credits.SpendsLeastRungSoonest | packages/case-lifecycle/pricing/credits.ts:102-107 | of the covering credits the one spent is of the least rung, then expires soonest, then was issued earliest |
| Credits.CoversExactly | packages/case-lifecycle/pricing/credits.ts:101-107 | what is live and what covers what |
| Credits.RefusalExactly | packages/case-lifecycle/pricing/credits.ts:110-119 | each refusal reason if and only if its filter is the first to leave nothing |
| Credits.RefusalReason | packages/case-lifecycle/pricing/credits.ts:110-119 | refused if and only if no credit covers the record, with the reason that is true of some credit |
| Credits.SpendsExactlyOne | packages/case-lifecycle/pricing/credits.ts:127-129 | a success marks exactly one live credit of sufficient rung spent and leaves the others alone |
| Credits.ExchangeAssigns | packages/case-lifecycle/pricing/credits.ts:109-130 | the exchange step: after the greedy choice the remaining records still have an assignment |
| Credits.GreedyNeverRefuses | packages/case-lifecycle/pricing/credits.ts:109-130 | if some assignment of live credits covers the records, spending them one at a time in any order never refuses |
| Credits.GreedyIsExact | packages/case-lifecycle/pricing/credits.ts:109-130 | the greedy rule covers the records, in whatever order, if and only if some assignment does |
| Promotions.PartnerPrice | packages/case-lifecycle/pricing/promotions.ts:57-89 | a partner price is positive and within the list price, price plus discount is the list price, and the discount is fifteen percent to the nearest cent |
| Promotions.FreeExactly | packages/case-lifecycle/pricing/promotions.ts:32-38 | when the first review is free, exactly, and which refusal comes first |
| Promotions.PromoExactly | packages/case-lifecycle/pricing/promotions.ts:57-89 | a free review whenever due, else the partner code whenever it applies, else the list price, with the reasons |
| PriceBook.ResolvePrice | packages/case-lifecycle/pricing/price-book.ts:159-170 | the row in effect with the latest start, the first of equals |
| PriceBook.ResolveSpec | packages/case-lifecycle/pricing/price-book.ts:153-158 | a dated row supersedes its predecessors; nothing resolves if and only if nothing is in effect |
| PriceBook.PriceIsFromBook | packages/case-lifecycle/pricing/price-book.ts:196-209 | prices are not negative, and a quote is required if and only if a professional's record is long |
| PriceBook.InEffectExactly | packages/case-lifecycle/pricing/price-book.ts:153-166 | a row is in effect from its first instant up to, not including, its last |
| PriceBook.PriceExactly | packages/case-lifecycle/pricing/price-book.ts:189-209 | the row a price is from, that it is purchasable, when there is none, and where a quote's floor comes from |
| Quote.Precedence | packages/case-lifecycle/pricing/quote.ts:63-97 | each kind of decision if and only if the earlier ones do not apply and its own ground does |
| Quote.SpendsOneThing | packages/case-lifecycle/pricing/quote.ts:63-97 | a decision spends one allowance record, or one live credit of sufficient rung, or nothing, and changes nothing else |
| Quote.PayIsWithinList | packages/case-lifecycle/pricing/quote.ts:84-96 | a price to pay lies in 0..list, and price plus discount is the list price |
| Quote.PaysListPrice | packages/case-lifecycle/pricing/quote.ts:84-97 | the list price is the row's in effect for the record's own SKU, and a code spent is the buyer's |
| Quote.PartnerHonoured | packages/case-lifecycle/pricing/quote.ts:87-94 | a code is spent if and only if an attorney's first paid review has one and a price |
| Quote.RefusalsCarried | packages/case-lifecycle/pricing/quote.ts:70-97 | each step asked and refused leaves its reason on the decision |
| Quote.RungRanks | packages/case-lifecycle/pricing/quote.ts:79 | the rung a record needs is its bucket's own |
| Quote.QuotesConserve | packages/case-lifecycle/pricing/quote.ts:63-97 | over any sequence of quotes, used and spent count exactly the decisions they paid for, and used never passes the grant |
| Quote.LongRecordsSpendNothing | packages/case-lifecycle/pricing/quote.ts:64-66 | a professional's long records never spend anything |
| Flags.OverrideWins | packages/database/flags.ts:155-175 | after an override write a read of that key for that tenant is its value, whatever the global one; every other read is as before |
| Flags.GlobalReaches | packages/database/flags.ts:145-152 | a global write reaches just the reads of its key without an override; a key without a row is refused |
| Flags.ClearGivesBack | packages/database/flags.ts:177-186 | clearing an override gives its tenant the global value back, and changes no other read |
| Flags.ChangeReports | packages/database/flags.ts:138-186 | the change returned is what was there before and what is there after |
| Flags.NoTenantReadsRow | packages/database/flags.ts:107-115 | a read without a tenant is the row's value; a key in neither table is off |
| Flags.ChangeUndoes | packages/database/flags.ts:154-186 | setting or clearing by the change returned restores every read |
| Flags.HitsForTtl | packages/database/flags.ts:50-85 | a read hits for 15 seconds after the snapshot's load ended and no longer |
| Flags.FinishStamps | packages/database/flags.ts:71-81 | a load that finishes has the maps it read, stamped with the time it finished |
| Flags.FlagCache.constructor | packages/database/flags.ts:60-61 | nothing is cached, no load is registered |
| Flags.FlagCache.GetSnapshot | packages/database/flags.ts:84-97 | a fresh snapshot is a hit; else the registered load, or a new one, is awaited |
| Flags.FlagCache.Loaded | packages/database/flags.ts:88-91 | a load's snapshot is stored whatever happened since it began |
| Flags.FlagCache.Settled | packages/database/flags.ts:92-94 | a settled load clears whatever load is registered |
| Flags.FlagCache.Invalidate | packages/database/flags.ts:64-67 | snapshot and registered load are dropped |
| Flags.EventsAreSegments | packages/database/flags.ts:60-97 | each event of the interleaving model acts on the module's state as the segment it stands for |
| Flags.ReadsAreRecent | packages/database/flags.ts:84-105 | under any interleaving with loads of at most L, both maps a cached read uses were the tables' at instants no older than TTL + L |
| Flags.AwaitedReadsAreRecent | packages/database/flags.ts:86-97 | a read that waits for a load gets tables no older than that load's age |
| Flags.StillTablesReadTrue | packages/database/flags.ts:99-115 | once the tables have been still for TTL + L, a cached read equals an uncached one |
| Flags.InvalidationIsSeen | packages/database/flags.ts:145-186 | after a write of one table and its invalidation, no running load having read that table before the write, whatever is served later has the table as it was at the write or later |
| Flags.InvalidationIsExact | packages/database/flags.ts:64-97 | an invalidation keeps a write of one table, in every continuation, if and only if no running load has read that table before the write |
| Flags.LoadInFlightHidesWrite | packages/database/flags.ts:84-97 | with such a load the old value is served after the write and its invalidation |
| SignInGuards.AlertGuard.constructor | packages/auth/sign-in-events.ts:147 | no timestamps |
| SignInGuards.AlertGuard.AlertAllowed | packages/auth/sign-in-events.ts:148-153 | forgets what is an hour old; allowed if and only if fewer than twenty remain, and then recorded |
| SignInGuards.HeldIsRecent | packages/auth/sign-in-events.ts:148-153 | the list kept is always the allowed calls of the last hour |
| SignInGuards.RefusedExactly | packages/auth/sign-in-events.ts:148-153 | what is compared with twenty is the number of calls allowed in the hour before |
| SignInGuards.AtMostTwentyAnHour | packages/auth/sign-in-events.ts:146-153 | for any nondecreasing call times no hour holds more than twenty allowed alerts |
| SignInGuards.TwentyAnHour | packages/auth/sign-in-events.ts:146-153 | the twenty-first of an hour is refused until the hour is over |
| SignInGuards.RateLimiter.constructor | packages/auth/auth-options.ts:17 | no entries |
| SignInGuards.RateLimiter.CheckRateLimit | packages/auth/auth-options.ts:22-32 | zero if and only if let through, else the minutes left, rounded up and at least one; only the address's own entry changes |
| SignInGuards.RateLimiter.ClearRateLimit | packages/auth/auth-options.ts:34-36 | the address's entry is removed |
| SignInGuards.WindowLaw | packages/auth/auth-options.ts:22-32 | at most five attempts are let through per window, and each window begins after the one before it ended |
| SignInGuards.AtMostTenInFifteenMinutes | packages/auth/auth-options.ts:22-32 | at most ten attempts of an address are let through in any fifteen minutes |
| SignInGuards.FiveInFifteenMinutes | packages/auth/auth-options.ts:18-31 | five attempts fill fifteen minutes; the sixth waits for their end and begins another window |
| SignInGuards.RefusedWhenFull | packages/auth/auth-options.ts:29 | refused if and only if the window is open and five were let through in it |
| BrandLogo.WhiteExactly | scripts/brand-logo-variants.py:28-49 | a pixel is white if and only if every channel is at least 225 |
| BrandLogo.SoftExactly | scripts/brand-logo-variants.py:28-51 | it is soft if and only if every channel is at least 179 and one below 225 |
| BrandLogo.SoftAlphaExactly | scripts/brand-logo-variants.py:52 | the softened alpha by the least channel, in integers |
| BrandLogo.SoftAlphaFalls | scripts/brand-logo-variants.py:52 | the whiter of two soft pixels is never the more opaque |
| BrandLogo.MinCounterExactly | scripts/brand-logo-variants.py:56 | the speckle size: 200, or a 20000th of a larger image rounded down |
| BrandLogo.ColourStaysOpaque | scripts/brand-logo-variants.py:46-80 | a pixel with any channel below 179 ends opaque |
| BrandLogo.EdgeFill | scripts/brand-logo-variants.py:33-52 | the first fill ends, and visits a white pixel if and only if it is connected to the border through white |
| BrandLogo.CollectComponent | scripts/brand-logo-variants.py:61-70 | the depth-first fill ends, and collects exactly the 4-connected white component of its root, each pixel once |
| BrandLogo.LookAround | scripts/brand-logo-variants.py:67-70 | stacks each unvisited white neighbour once |
| BrandLogo.ClearComponent | scripts/brand-logo-variants.py:71-80 | clears the component and softens exactly the soft pixels around it |
| BrandLogo.SoftenAround | scripts/brand-logo-variants.py:75-80 | softens the still opaque neighbours of one pixel |
| BrandLogo.FillEnclosed | scripts/brand-logo-variants.py:57-80 | one enclosed component is cleared if and only if it is no speckle |
| BrandLogo.ComponentVerdict | scripts/brand-logo-variants.py:71-73 | all pixels of an enclosed component are cleared, or none |
| BrandLogo.AlphaChannel | scripts/brand-logo-variants.py:33-80 | for every image the finished array is the specified alpha of every pixel |
| BrandLogo.WhitePixelAlpha | scripts/brand-logo-variants.py:53-73 | a white pixel has alpha 0 if and only if its component touches the border or has MIN_COUNTER pixels, and 255 otherwise |
| BrandLogo.FinalAlphaRange | scripts/brand-logo-variants.py:52 | every alpha lies in 0..255 |
| BrandLogo.SoftAlphaRange | scripts/brand-logo-variants.py:52 | so does every softened one |
| CounselPacket.OrderIsComplete | packages/reports/counsel-packet.ts:286-289 | every screen stands in the group order exactly once, for every vehicle |
| CounselPacket.ScreensWeighed | packages/case-lifecycle/trap/vehicles.ts:43-115 | which vehicles weigh four of the screens, and the screen each puts first |
| CounselPacket.MoreScreensWeighed | packages/case-lifecycle/trap/vehicles.ts:43-115 | which vehicles weigh the other four |
| CounselPacket.NamesRead | packages/reports/counsel-packet.ts:248-249 | a string names a screen if and only if it is that screen's name |
| CounselPacket.ScreenOfExactly | packages/reports/counsel-packet.ts:278-283 | a finding's screen is the one its screen names, else its category |
| CounselPacket.SeveritiesOrdered | packages/reports/counsel-packet.ts:276 | dispositive before supportive before background before any other |
| CounselPacket.PartB | packages/reports/counsel-packet.ts:424-447 | the groups are those of the specification, and every dropped finding is listed in order |
| CounselPacket.SortIsStable | packages/reports/counsel-packet.ts:435-437 | findings of one severity keep their order |
| CounselPacket.SortIsSorted | packages/reports/counsel-packet.ts:435-437 | the sort key never falls |
| CounselPacket.SortIsPermutation | packages/reports/counsel-packet.ts:435-437 | no finding is lost or added |
| CounselPacket.GroupsKeepEveryFinding | packages/reports/counsel-packet.ts:424-440 | the groups are a permutation of the retained findings; none is empty, each is its screen's findings stably sorted |
| CounselPacket.DroppedItems | packages/reports/counsel-packet.ts:443-446 | one item per dropped finding, in order |
| CounselPacket.AddEntries | packages/reports/counsel-packet.ts:499-508 | logs each citation key of a list that is not logged yet, once and in order, the first of each, with the list's status and the finding's own fields and citation |
| CounselPacket.CitationLog | packages/reports/counsel-packet.ts:496-520 | the first entry of each distinct key, in the order of the lists, verified if and only if a retained finding cites under it, printing a finding and citation of its list; verified plus dropped is the length |
| CounselPacket.KeysAgree | packages/reports/counsel-packet.ts:502 | where no field before the excerpt holds a bar, two citations share a key if and only if finding and all fields agree |
| CounselPacket.OfferedIsFirst | packages/reports/counsel-packet.ts:499-508 | an entry kept is the first offered with its key |
| CounselPacket.StatusesAddUp | packages/reports/counsel-packet.ts:518-519 | the two counts partition the entries |

## Left out

- `CivilDates` bridge: the deadline, calendar and packet strings outside the real dates of the years 100 to 9999; the deadline modules take day numbers.
- Two outbox publishers: `FOR UPDATE SKIP LOCKED` gives them disjoint claims only, and no order. Row ids are taken in commit order.
- PostgreSQL isolation, row-level security and sequence allocation: a transaction is one atomic step, or a rollback.
- Lost subscriptions: from its opening the page hears every message of its channel, in order, perhaps again.
- The order of `startedAt` and `createdAt`: taken to be that of the rows, so that a run's events are the rows from its first on.
- `onError` of the outbox loop: taken not to throw.
- `validateEventPayload`: its verdict is an input. Payload numbers are integers.
- The `customer` part of an outbox message and `customerView`: a small finite table.
- The feed's activity list and the wording around it (`describeRightNow`, `checkRows`, stalls): presentation, not deduplicated.
- `normalizeCivilDate`: a parser of several input shapes, apart from the arithmetic.
- Labels, basis sentences, notes, disclaimers, `signedBy` and `unsignedCount` of the clock and the posture: text and bookkeeping.
- `expectedReadyDate`: its time-zone conversion is a library call.
- UnpolledPage.FeedIsExactlyOnce: for a page that has not polled, and up to the feed's own notion of a repeated message; PagePolls has the pages that poll, DistinctKeptAll and AlikeEventsExactly what the dropped messages change.
- PagePolls.InStepExactly: for run events that are all unlike; for alike ones StepStaysInStep gives the law of every message, and of answers PollPutsInStep one direction only. A run begun is no news to the page until it hears or polls an event of it.
- Deadlines.WindowEndDate: for writs disposed of by `asOf` that do not overlap; for overlapping ones ExpiredExactly gives the law of every day.
- Flags.AwaitedReadsAreRecent: speaks of a read answered within the load limit.
- Unknown flag keys, `listFlags` and the admin views: refusals and projections of the same snapshot. The table writes of the setters are one event, their invalidation another.
- `issuePackCredits` and the rows of the default price book: the laws hold for any book with no negative price.
- Family overage and page buckets: arithmetic on page counts.
- Credits that are one object listed twice, and a system clock that runs back.
- BrandLogo.AlphaChannel: whiteness and alpha are real numbers, not floats, so rounding at the two thresholds is not modelled.
- The dark-logo colour transform and image resizing.
- The counsel packet's other sections and its rendering; `recordCite` is represented by the citation it is made from.
- Routes, queues, e-mail, text messages, payments and storage.
