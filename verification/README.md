# Covel: verified models of its self-contained algorithms

This Dafny project models parts of Covel whose correctness does not depend on a language model, a database or a
user interface, and proves what their code and documentation promise. `dafny verify dfyconfig.toml` checks it.

| files | component |
|---|---|
| `WorldClock`, `ClockReading`, `ClockAdvance`, `ClockDurations`, `Radix` | the world clock: schema, ticks and dates, reading, stepping |
| `DataRootPlan`, `FileTree`, `CopyLaws`, `CopySteps`, `DataRootPromises`, `DataRootCopy` | moving the data root: plan, copy with its undo log, the recorded choice, starts that may crash |
| `FuseScan`, `FuseWire` | the chunked search for Electron's fuse wire |
| `RequestWork`, `ServerDrain` | ownership of request work and the shutdown drain |
| `RecoverySpec`, `ServerRecovery` | restarting a sidecar that has died |
| `FallbackSpec`, `FallbackLaws`, `FallbackRun` | the model fallback chain |
| `Text`, `LogLines`, `LogFiles`, `LogStreams`, `LogTurns`, `LogTee` | the rolling server log |
| `WorldSeed`, `WorldSeeder`, `WorldWatcher` | seeding and reconciling worlds, reloading them on change |
| `Lexicographic`, `Precedence`, `AppUpdate`, `VersionText` | comparison of versions |
| `BranchTexts`, `BranchReply` | reply candidates of a turn |
| `PointBuy`, `SearchTokens`, `SettingsFiles` | the point-buy allocator, the search terms of the documentation site, settings backups |

## How the models work

* **Clock.** Ticks are integers; the two places where JavaScript rounds a double are written out (`Double`), and so
  is its remainder. `AdvanceTime` is a function of the request and of the number the random source returns.
* **Data root.** The file system is a tree; each system call is a method that may fail, and may end the process
  before, or in the middle of, what it writes. A crash is the result `Crashed`, which every caller passes on, so a
  contract that speaks of `Crashed` speaks of every prefix of the steps. Renaming, and writing the record or the
  configured root, are atomic. Whether the database is in use, whether the record can be marked or removed, how many
  directories can be made, and whether anything else fails (`smooth`) are inputs of a start. The running app may change any file between two starts.
* **Concurrency.** One uninterrupted turn of the event loop is one method call. `Run` methods take any sequence of
  events and pass over those that cannot happen, so what they ensure holds in every interleaving. In
  `ServerRecovery` the order the application keeps (`apps/desktop/src/main.ts:594-615`) is the predicate `Orderly`;
  in `WorldSeeder` anything may happen to the store between two locks unless `alone` is set, and any call of it may
  fail unless `reliable` is.
* **Log.** A stream opens in an event of its own, some time after it was made; until then its records wait, and there
  may be no file at its path. A turn of the event loop logs records while no stream opens.
* **Code that is not shown** (classifiers of provider errors, Unicode tables, the language model) appears as fields
  of the data that reaches the modelled code.

## Where the code departs from its description

Each is stated by a member below, with the exact condition under which the code does what is said of it.

* `describeTime` multiplies a floor back; near the ends of the safe range that product can lose its last bit. The
  date is right exactly when the start of the year is a number a double can hold (`DescribeTime`), and a five-minute
  year at tick `-(2^53 - 1)` runs off the month list (`MonthsRunOut`).
* `isInside` takes a first name such as `..new` for a path that leads out. Of two roots with one inside the other data
  is copied exactly if the first name between them starts with two dots (`NestedIsCopiedIff`, at `DotDotIsCopied`).
* A call of `copyDataRoot` that throws "has already removed" what it created, unless the recursive `mkdir` of the
  destination stopped half-way: what that made stays. Every failure of it leaves the tree as it was exactly if at most
  one directory of the way is missing beforehand, or a file is in the way (`FailureRestoresIff`, at `HalfMadeStays`);
  every other failure of the call does (`CopyDataRoot`).
* "The record is gone afterwards whatever happened": it is gone exactly if it could be removed (`ApplyPending`).
  "A failure is never retried": a recorded choice is attempted again exactly if every start since could neither mark
  nor remove the record, or died before marking it (`AttemptedAgainIff`; two starts that do are `RetryHappens`).
* The clean-up after an interrupted copy removes the staging directory without proof that it is the copy's own.
  Everything from before survives exactly when there was none (`CleanupKeepsAll`; two starts that lose another's are
  `ForeignStagingIsLost`).
* What a copy that was cut short had put in place stays. If the same directory is chosen again, it passes for an
  existing data root exactly if an item had come into place, and is a partial one exactly if `covel.db` had not
  (`RemainsAreAdoptedIff`).
* The exit of the ready sidecar is recovered from exactly unless a cancelled restart is in flight when it exits
  (`ExitIsAnsweredIff`, over runs `RecoversIff`); what is lost so stays lost (`LostStays`, reached in
  `StartDuringCancelledRestart`). This is why the application waits for `cancel()` (`OrderlyRecovers`).
* With a single log file, rotation reopens that file: it stays within the bound exactly as long as all that was logged
  does (`SingleFileFitsIff`). With several files, a second rotation in one turn finds no file to move, and two streams
  write to one: a run stays within the bound exactly if no turn of it rotates twice, which the bytes counted before the
  turn and the sizes of its records decide (`StaysBoundedIff`, at `BurstOverflows` and `BurstSettles`).
* A world record without a source takes the source of its package when it is seeded again, and becomes removable
  (`ReseedKeepsUnremovable`; two passes that lose such a world are `SourcelessWorldIsLost`).
* `createCandidates` reads the turn, waits for the model and then writes. If a reply was adopted in between, its
  record stays although the turn is no longer accepted (`LateWriteIsValidIff`, at `LateWriteLeavesAdopted`).
* Credentials or settings that keep a *backup* target from being prepared end the whole operation with that error,
  and later backups are not tried (`ResolveIffEnds`, at `BadBackupEnds`).

## Model

| member | source | states |
|---|---|---|
| `WorldClock.CheckPeriods` | plugins/world-time/schema.js:127-138 | the refinement's loop raises no issue exactly when the period starts are within the day and strictly increasing |
| `WorldClock.MonthOfDay` | plugins/world-time/clock.js:91-96 | the month loop stays inside the list exactly for the days of a year, and finds the month whose days surround the day |
| `WorldClock.MonthOfUnique` | plugins/world-time/clock.js:62-64 | a month and a day of it are found again from the days that precede them |
| `WorldClock.DecodeEncode` | plugins/world-time/clock.js:57-99 | decoding the tick of a valid date gives that date, for years of either sign |
| `WorldClock.EncodeDecode` | plugins/world-time/clock.js:88-99 | every tick, negative ones too, decodes to a valid date whose tick it is |
| `WorldClock.EncodeOrder` | plugins/world-time/clock.js:65-70 | tick order is lexicographic date order |
| `WorldClock.DateInYearValid` | plugins/world-time/clock.js:91-99 | a count of base units names a date of the year exactly when it lies inside the year, and the month loop runs off the list exactly from the end of the year on |
| `WorldClock.DoubleIsNearest` | plugins/world-time/clock.js:89-90 | the product as a double keeps it: exact up to `2^53`, above that even, off by one at most, and then a multiple of four |
| `ClockReading.InitialTickNeverThrows` | plugins/world-time/schema.js:139-147 | for every accepted definition all intermediate numbers of `initialTick` are safe integers and it returns the exact starting tick |
| `ClockReading.FindMonth` | plugins/world-time/clock.js:91-96 | the loop with its two counters computes the recursive month search, or ends past the list |
| `ClockReading.RoundedStart` | plugins/world-time/clock.js:89-90 | a rounded start of the year or cycle is wrong by exactly one, and only if the start is no double |
| `ClockReading.DescribeTime` | plugins/world-time/clock.js:74-123 | throws exactly on unsafe ticks, or past the months; gives the date of the tick exactly when the start of its year is a number a double can hold, its weekday exactly when rounding changes the day count by whole weeks, and the period of the hour it reports |
| `ClockReading.MonthsRunOut` | plugins/world-time/clock.js:89-96 | a concrete accepted clock and safe tick on which the month loop runs off the list |
| `ClockReading.PeriodOfHour` | plugins/world-time/clock.js:100-103 | the reported period is the only one that covers the hour, the last one covering the time before the first start |
| `ClockReading.WeekdayIndex` | plugins/world-time/clock.js:105-111 | the nested remainders give an index into the week, the promised one exactly when rounding changes the day count by whole weeks |
| `ClockReading.WholeDays` | plugins/world-time/clock.js:97-111 | in exact arithmetic, moving by k whole days, k of either sign, keeps hour and minute and turns the weekday by k |
| `ClockReading.ReadWholeDays` | plugins/world-time/clock.js:74-123 | two readings that are not rounded, k whole days apart, show the same clock time and period, and weekdays k apart |
| `ClockAdvance.StepKeepsPolicy` | plugins/world-time/clock.js:178-276 | every accepted step is at most `maxStep` long, goes the permitted way, and ends in the safe range; a random step is the drawn one |
| `ClockAdvance.TargetStepLands` | plugins/world-time/clock.js:193-236 | an accepted calendar target is exactly the date of the new tick, whose year starts at a number a double can hold, so it is the date the clock then shows |
| `ClockAdvance.TargetAccepted` | plugins/world-time/clock.js:193-236 | which targets are accepted, said in dates: real dates, on the permitted side of now, within reach, with a weekday only where there is a week |
| `ClockAdvance.PhaseTargetLands` | plugins/world-time/clock.js:193-236 | an accepted phase target is the cycle and phase of the new tick, whose cycle starts at a number a double can hold |
| `ClockAdvance.PhaseTargetAccepted` | plugins/world-time/clock.js:193-236 | which phase targets are accepted: phases there are, on the permitted side of now, within reach |
| `ClockAdvance.TargetIsAlone` | plugins/world-time/clock.js:193-223 | a target with a duration beside it is refused, and so is one of the other kind of clock |
| `ClockAdvance.EmptyRequest` | plugins/world-time/clock.js:237-275 | an empty request steps by the default in the policy's direction, and is refused only for leaving the safe range |
| `ClockAdvance.ZeroInAnyUnit` | plugins/world-time/clock.js:255-258 | zero is accepted in any unit, even one this clock lacks, and moves nothing |
| `ClockAdvance.ThereAndBack` | plugins/world-time/clock.js:237-275 | on a bidirectional clock the opposite duration is accepted after a duration and restores the tick |
| `ClockAdvance.RunKeepsPolicy` | plugins/world-time/clock.js:270-275 | n requests move the clock at most n times `maxStep`, only the permitted way, and keep it safe |
| `ClockDurations.EncodeByDays` | plugins/world-time/clock.js:57-72 | a tick is the number of its day times the length of a day, and its time of day; day numbers count every day of every year once |
| `ClockDurations.DurationAccepted` | plugins/world-time/clock.js:237-276 | on every clock and in every unit it has, a duration is accepted exactly if it is not negative, goes a permitted way, is at most `maxStep` long and stays in the safe range; a day is `hoursPerDay` hours of `minutesPerHour` minutes, a cycle all phases, and the sign is the direction |
| `ClockDurations.ForeignUnit` | plugins/world-time/clock.js:246-258 | a unit of the other kind of clock, or of none, is accepted for zero and nothing else |
| `ClockDurations.RefusalsAreTrue` | plugins/world-time/clock.js:237-276 | a duration is refused only for a reason that is true of it: its amount, its unit, its direction, its length or where it would end |
| `ClockDurations.RandomStep` | plugins/world-time/clock.js:178-191 | a random clock refuses every wish and otherwise moves by what was drawn, up to the end of the safe range |
| `ClockDurations.TicksMove` | plugins/world-time/clock.js:246-268 | k minutes or k phases move the tick by k, the way that was asked |
| `ClockDurations.DaysMove` | plugins/world-time/clock.js:246-268 | k days move the decoded date by k days and keep hour and minute |
| `ClockDurations.HoursMove` | plugins/world-time/clock.js:246-268 | k hours move the decoded date by k hours, over midnights and years, and keep the minute |
| `ClockDurations.CyclesMove` | plugins/world-time/clock.js:246-268 | k cycles move the cycle by k and keep the phase |
| `DataRootPlan.RelativeStarts` | apps/desktop/src/data-root-copy.ts:57-62 | the text of a relative path begins with two dots exactly if it leads up, or down through a name that does |
| `DataRootPlan.NestedUnlessDotDot` | apps/desktop/src/data-root-copy.ts:57-62 | the tests on that text recognise nesting exactly unless the first name below the outer directory starts with two dots |
| `DataRootPlan.NestedIsCopiedIff` | apps/desktop/src/data-root-copy.ts:91-103 | of two roots with one inside the other, data is copied exactly if the name between them starts with two dots, and refused otherwise |
| `DataRootPlan.DotDotIsCopied` | apps/desktop/src/data-root-copy.ts:91-103 | a destination inside the source that is planned as a copy |
| `DataRootPlan.HasDataIff` | apps/desktop/src/data-root-copy.ts:69-78 | a root has data exactly if one of the three database files, or anything inside `worlds` or `media`, can be read; an empty directory is none |
| `DataRootPlan.PlanIff` | apps/desktop/src/data-root-copy.ts:91-103 | which of the five plans applies, said in what can be read at both roots |
| `DataRootPlan.EmptyDirectoryIsNoData` | apps/desktop/src/data-root-copy.ts:97-99 | a new root with nothing but an empty `worlds` is copied to |
| `DataRootPlan.NamesOnDisk` | apps/desktop/src/data-root-copy.ts:22-31 | the names of the items as they are on disk, no two alike |
| `CopyLaws.UndoesIsIntact` | apps/desktop/src/data-root-copy.ts:141-146 | a tree from which the log leads back has lost and changed nothing, and gained nothing outside the copy's own paths |
| `CopyLaws.SourceReads` | apps/desktop/src/data-root-copy.ts:131-223 | at every moment of a planned copy the items of the source read as before |
| `CopyLaws.CrashKeepsSource` | apps/desktop/src/data-root-copy.ts:191-218 | wherever a copy is cut off, every item of the old data root is as it was |
| `CopyLaws.CrashKeepsOldRoot` | apps/desktop/src/data-root-copy.ts:191-218 | and so is the whole old root when the two lie apart |
| `CopyLaws.CompleteReads` | apps/desktop/src/data-root-copy.ts:159-218 | after a complete copy whatever could be read at or below an item of the old root is read there at the new one |
| `CopyLaws.CleanupKeepsAll` | apps/desktop/src/data-root-copy.ts:342-348 | the clean-up of an interrupted copy keeps everything from before exactly when the staging directory was the copy's own |
| `CopyLaws.MadeDirsUndone` | apps/desktop/src/data-root-copy.ts:149-152 | removing the first directory that `mkdir` made undoes all it made |
| `CopyLaws.NextIsFree` | apps/desktop/src/data-root-copy.ts:151 | of the directories a recursive `mkdir` makes, each is new and its parent is there |
| `CopyLaws.MadeDirsDiffer` | apps/desktop/src/data-root-copy.ts:151 | a recursive `mkdir` that stopped half-way has left something exactly if it made any directory |
| `CopyLaws.FailureRestoresIff` | apps/desktop/src/data-root-copy.ts:127-130 | every failure of the recursive `mkdir` leaves the tree as it was exactly if at most one directory of the way is missing, or a file is in the way |
| `CopyLaws.HalfMadeStays` | apps/desktop/src/data-root-copy.ts:149-152 | a planned copy whose `mkdir` fails after its first directory, which stays |
| `DataRootCopy.Host.MkdirAll` | apps/desktop/src/data-root-copy.ts:151-152 | missing directories are made in order; it reports the first made, or exactly how many it made before it failed, with one more still to make |
| `DataRootCopy.Host.Undo` | apps/desktop/src/data-root-copy.ts:143-146 | undoing restores the tree from before exactly; cut off, it leaves a state a crash of the copy may leave |
| `DataRootCopy.Host.StageDatabase` | apps/desktop/src/data-root-copy.ts:159-173 | on success every database file of the source is staged with equal content; short copies are found; it succeeds when nothing fails and all are files |
| `DataRootCopy.Host.StageDirectories` | apps/desktop/src/data-root-copy.ts:175-189 | on success exactly the filled data directories are staged with equal content, their entries listed |
| `DataRootCopy.Host.Place` | apps/desktop/src/data-root-copy.ts:193-197 | a rename into place never replaces anything and is logged |
| `DataRootCopy.Host.PlaceDirectories` | apps/desktop/src/data-root-copy.ts:198-211 | directories come into place whole or entry by entry, before any database file, and can be undone at every point |
| `DataRootCopy.Host.PlaceDatabase` | apps/desktop/src/data-root-copy.ts:212-214 | database files come into place last to first, so that `covel.db` comes after everything else and is the first to be undone |
| `DataRootCopy.Host.CopyDataRoot` | apps/desktop/src/data-root-copy.ts:131-223 | a crash leaves nothing changed or gone and `covel.db` only with a complete copy; a failure leaves exactly the tree from before whenever at most one directory of the way was missing or a file in the way, and otherwise at most what a half-way `mkdir` made; a success is a complete copy without staging whose log undoes it exactly; and it succeeds when nothing fails and the disk allows it |
| `DataRootCopy.Host.CopyAndSwitch` | apps/desktop/src/data-root-copy.ts:369-386 | nothing is copied before the record is durably marked; the configured root becomes the new one only with a complete copy; if it cannot be set, the copy is undone; when nothing fails the result is "copied" |
| `DataRootCopy.Host.Attempt` | apps/desktop/src/data-root-copy.ts:337-378 | what each branch may have changed at any moment, and what its result means; a database in use is never copied; a marked record is reported and the staging directory removed; when nothing fails each plan is carried out |
| `DataRootCopy.Host.ApplyPending` | apps/desktop/src/data-root-copy.ts:324-394 | how far tree, configured root and record may have come wherever a start ends, what each reported outcome guarantees, that a start which returns leaves no record exactly if it could be removed, and that the choice is carried out when nothing fails |
| `DataRootPromises.StartIsSound` | apps/desktop/src/data-root-copy.ts:318-323 | a start keeps the old root's data, the whole old root if the new one lies apart, and lets one record cause at most one copy |
| `DataRootPromises.AttemptedAgainIff` | apps/desktop/src/data-root-copy.ts:318-323 | over any run, a recorded choice is attempted again exactly if every start since left the record unmarked and in place |
| `DataRootCopy.RetryHappens` | apps/desktop/src/data-root-copy.ts:365-367 | two starts: at the first the database is in use and the record cannot be removed, the second copies and switches |
| `DataRootPromises.InterruptionIsNoticed` | apps/desktop/src/data-root-copy.ts:342-348 | over any run, the first start to return after a copy was cut short reports it and leaves no staging directory, if the configured root is still the old one |
| `DataRootPromises.RemainsAreAdoptedIff` | apps/desktop/src/data-root-copy.ts:352-355 | over any run, choosing the directory of a copy that was cut short again takes its remains for a data root exactly if an item had come into place, a partial one exactly if `covel.db` had not |
| `DataRootCopy.ForeignStagingIsLost` | apps/desktop/src/data-root-copy.ts:342-348 | two starts after which a staging directory that no copy made is gone |
| `DataRootCopy.Host.Run` | apps/desktop/src/data-root-copy.ts:318-394 | any run of starts, crashes, new choices and edits in between is a trace in which every start keeps these promises |
| `CopySteps.WorkingRename` | apps/desktop/src/data-root-copy.ts:193-197 | moving a staged item into place and logging it keeps the copy undoable |
| `FuseScan.PositionsAreMatches` | apps/desktop/src/backend-runtime.ts:73-77 | the positions of the specification are exactly the matches of the sentinel, each once, in order |
| `FuseScan.Retain` | apps/desktop/src/backend-runtime.ts:93-94 | the end of the window moves to the front of the same buffer, overlapping or not |
| `FuseScan.NextMatch` | apps/desktop/src/backend-runtime.ts:73-77 | a search over the whole buffer, stale bytes included, finds the next sentinel of the window, or shows there is none |
| `FuseScan.CheckWindow` | apps/desktop/src/backend-runtime.ts:73-92 | all sentinels of a window are checked, up to the first bad one |
| `FuseScan.ScanChunk` | apps/desktop/src/backend-runtime.ts:65-95 | one chunk, however short the read, extends what has been checked by exactly the sentinels it completes |
| `FuseScan.Scan` | apps/desktop/src/backend-runtime.ts:59-98 | for any sentinel, chunk size and short reads, every sentinel of the bytes seen is checked once and in order, and the verdict is that of the bytes seen |
| `FuseScan.AssertRunAsNode` | apps/desktop/src/backend-runtime.ts:44-98 | it succeeds exactly when what it sees of the file has a sentinel and each is followed by a valid, enabled header; with reads that return something that is the whole file |
| `FuseWire.SentinelIsText` | apps/desktop/src/backend-runtime.ts:55 | the bytes searched for are the characters of the sentinel |
| `FuseWire.HeaderBytes` | apps/desktop/src/backend-runtime.ts:80-86 | which three bytes behind a sentinel are accepted: version 1, a size of at least 1 that fits into the file, and a first state `1` |
| `FuseWire.HeaderIffWire` | apps/desktop/src/backend-runtime.ts:79-86 | a header is accepted exactly if it was read in full and a whole wire begins there whose first state is `1` |
| `FuseWire.RunsAsNodeIff` | apps/desktop/src/backend-runtime.ts:44-98 | the verdict on the whole file: a sentinel stands in it, and however the file is taken apart at a sentinel, an enabled wire follows |
| `FuseWire.OneSentinel` | apps/desktop/src/backend-runtime.ts:79-86 | in a file with one sentinel the three bytes behind it decide |
| `RequestWork.ApplicationWork.Arrive` | apps/server/src/application-work.ts:31-54 | a request is admitted exactly if it is not re-entrant and closing has not begun, and is then owned |
| `RequestWork.ApplicationWork.HandlerEnds` | apps/server/src/application-work.ts:68-73 | a request stays owned while children run, and its completion fires once, when the last of handler and children ends |
| `RequestWork.ApplicationWork.ChildStarts` | apps/server/src/application-work.ts:57-66 | a child starts exactly if its request is still running |
| `RequestWork.ApplicationWork.ChildEnds` | apps/server/src/application-work.ts:60-65 | the end of a child releases its request once |
| `RequestWork.ApplicationWork.FiresOnce` | apps/server/src/application-work.ts:43-73 | a request is owned exactly while its handler or a child runs, and its completion has fired once by then |
| `RequestWork.ApplicationWork.ClosedMeansQuiet` | apps/server/src/application-work.ts:75-86 | when `close()` has resolved, no admitted handler or child runs |
| `ServerDrain.PhasesInOrder` | apps/server/src/server-resources.ts:57-125 | the phases of the resources there are, each once, in the fixed order |
| `ServerDrain.PlanIs` | apps/server/src/server-resources.ts:57-125 | the phases by name: producers and memory, with an API its plugins and event bus, then media, store, lock pool and ingest pool as far as they are there |
| `ServerDrain.Server.Record` | apps/server/src/server-resources.ts:30-49 | a phase that fails or times out is noted; the drain may pass it exactly if it does not block |
| `ServerDrain.Server.Advance` | apps/server/src/server-resources.ts:72-125 | the drain stops at a blocking phase and otherwise calls the next |
| `ServerDrain.Server.GatesPassed` | apps/server/src/server-resources.ts:72-109 | a phase has been called only if the drain passed every phase before it |
| `ServerDrain.Server.ClosesQuietly` | apps/server/src/server-resources.ts:58-77 | past the producers no request work runs or is admitted |
| `ServerDrain.Server.StoreNeedsGates` | apps/server/src/server-resources.ts:72-116 | the store is closed only with all gates passed, no memory task left and no request work live |
| `ServerDrain.Server.LeavesAllCalled` | apps/server/src/server-resources.ts:110-125 | one failed store or pool does not keep the others from being closed |
| `ServerDrain.Server.ClosedIff` | apps/server/src/server-resources.ts:72-125 | what a finished drain has called: the closing of every resource there is exactly if no gate failed or left tasks, and of the gates each one up to the first that did |
| `ServerDrain.Server.Run` | apps/server/src/server-resources.ts:127-131 | in every interleaving of requests, children, shutdown calls and drain steps the store is closed only when no request work is live |
| `RecoverySpec.BudgetHolds` | apps/desktop/src/server-recovery.ts:42-52 | between two resets no more restarts start than were scheduled, and no more are scheduled than allowed |
| `RecoverySpec.OneAtATime` | apps/desktop/src/server-recovery.ts:53-71 | starts less settlements of restarts are never more than one |
| `RecoverySpec.CancelledStaysQuiet` | apps/desktop/src/server-recovery.ts:64-68 | after a cancellation, whether or not the restart in flight has settled, nothing is scheduled, started, navigated to or reported as down until a sidecar is ready again |
| `RecoverySpec.CancelledNeverNavigates` | apps/desktop/src/server-recovery.ts:57-68 | until a restart that was cancelled while it ran has settled, nothing navigates, starts or is scheduled, whatever becomes ready |
| `RecoverySpec.DelayDoubles` | apps/desktop/src/server-recovery.ts:49 | the wait starts at the base, doubles with every attempt and stops growing at fifteen seconds |
| `RecoverySpec.ResolvedIsShown` | apps/desktop/src/server-recovery.ts:57-61 | a restart that resolves while current, with a sidecar ready, has navigated to it and then reported it "up" |
| `ServerRecovery.SchedulingRecovers` | apps/desktop/src/server-recovery.ts:42-72 | scheduling leaves a timer, a restart in flight or a reported "down" |
| `ServerRecovery.StepRecovers` | apps/desktop/src/server-recovery.ts:74-99 | every call, timer and settlement keeps the history lawful, and owed recovery under way exactly unless the ready sidecar exits while a cancelled restart is in flight |
| `ServerRecovery.ExitIsAnsweredIff` | apps/desktop/src/server-recovery.ts:83-89 | the exit of the ready sidecar leaves a timer, a restart of this generation, or "down", exactly unless a cancelled restart is in flight when it exits |
| `ServerRecovery.RecoversIff` | apps/desktop/src/server-recovery.ts:42-98 | over any events, recovery that is owed is always under way exactly if no ready sidecar exits while a cancelled restart is in flight |
| `ServerRecovery.OrderlyRecovers` | apps/desktop/src/main.ts:594-615 | it always is in the order the application keeps, in which a sidecar starts only after cancelled restarts have settled |
| `ServerRecovery.LostStays` | apps/desktop/src/server-recovery.ts:42-72 | recovery that is owed and not under way stays so, whatever settles or fires, until a sidecar becomes ready or recovery is cancelled |
| `ServerRecovery.StartDuringCancelledRestart` | apps/desktop/src/server-recovery.ts:53-100 | a run of calls that ends with such a sidecar gone and no recovery under way |
| `ServerRecovery.StepTells` | apps/desktop/src/server-recovery.ts:42-98 | each call, timer and settlement writes the entries that tell of it, decided by the entries before and by no field |
| `ServerRecovery.RunTells` | apps/desktop/src/server-recovery.ts:42-98 | over any events the entries of the run are those |
| `ServerRecovery.ResetRenews` | apps/desktop/src/server-recovery.ts:96-98 | after `resetBudget` the exit of the ready sidecar is answered with the first attempt after the shortest wait |
| `ServerRecovery.UserRestartRenews` | apps/desktop/src/main.ts:766-771 | a restart that the user asks for starts the budget over, however much of it was used |
| `ServerRecovery.Recovery.FinishRestart` | apps/desktop/src/server-recovery.ts:56-69 | the callback's branches and its `finally` have the effect of one settlement |
| `ServerRecovery.Recovery.Run` | apps/desktop/src/server-recovery.ts:12-100 | over any events the state is that of the specification, its fields agreeing with a lawful history whose entries the events alone decide |
| `FallbackLaws.RunsIffAccountWorks` | packages/ai-provider/src/gateway-fallback-chain.ts:44-73 | a target is skipped exactly when an earlier target of its account would fail for the whole account |
| `FallbackLaws.ResolveIffEnds` | packages/ai-provider/src/gateway-run-operation.ts:176-271 | the recursion gives a result exactly when the first target that is not passed decides it |
| `FallbackLaws.BadBackupEnds` | packages/ai-provider/src/gateway-run-operation.ts:176-200 | three targets of which the second cannot be prepared and hides the third, which would have worked |
| `FallbackLaws.SuccessIsFirst` | packages/ai-provider/src/gateway-run-operation.ts:180-240 | an operation succeeds exactly with the first target that is tried and succeeds, all before it being skipped or failed with errors that allow a fallback |
| `FallbackLaws.CauseIsKept` | packages/ai-provider/src/gateway-fallback-chain.ts:188-204 | skipped fallbacks never hide the failure before them: only its message grows |
| `FallbackLaws.SkippedStaysEligible` | packages/ai-provider/src/gateway-fallback-chain.ts:188-208 | a skipped fallback leaves the chain as eligible as it was |
| `FallbackLaws.FallbackIffAnswerable` | packages/ai-provider/src/gateway-lifecycle.ts:40-100 | what was thrown decides, kind by kind, whether the next target may be tried: never after a refusal, a spent budget or a bad setting, always after a missing key |
| `FallbackLaws.FailureNamesTarget` | packages/ai-provider/src/gateway-fallback-chain.ts:225-242 | a failure names provider and model of its target, ends in the words of what was thrown, and keeps code and status |
| `FallbackLaws.UnpreparedIsSetting` | packages/ai-provider/src/gateway-fallback-chain.ts:118-137 | a target that cannot be prepared fails with the provider's own error, or else like a bad setting |
| `FallbackLaws.FailedIsPassedIff` | packages/ai-provider/src/gateway-fallback-chain.ts:206-222 | a target that failed is passed exactly if there is another, nobody stopped the call, the budget is not spent, and a backup may answer the failure |
| `FallbackLaws.BackupAnswersIff` | packages/ai-provider/src/gateway-run-operation.ts:176-271 | a call with a working backup gives the backup's answer exactly for those failures, and else the first failure |
| `FallbackRun.HandleTargetFailure` | packages/ai-provider/src/gateway-fallback-chain.ts:143-222 | when the next target may be tried, and which error is thrown otherwise |
| `FallbackRun.KnownToFail` | packages/ai-provider/src/gateway-fallback-chain.ts:44-73 | the tracker's list answers exactly for the accounts of targets that failed account-wide |
| `FallbackRun.TryTarget` | packages/ai-provider/src/gateway-run-operation.ts:202-256 | an attempt gives back the slot it took however it ends, and records its account |
| `FallbackRun.RunOperation` | packages/ai-provider/src/gateway-run-operation.ts:176-271 | the loop returns the recursion's result; it tries exactly the targets to be tried up to the deciding one; slots taken are given back, one at a time |
| `Text.IndexOf` | apps/server/src/server-log-tee.ts:143 | the first occurrence, or none |
| `Text.IndexOfFirst` | apps/server/src/server-log-tee.ts:143-145 | the first occurrence is found behind any text without one |
| `Text.SpaceCodes` | apps/server/src/server-log-tee.ts:99 | which characters are white space to `trim`, by code |
| `LogLines.SplitIsInverse` | apps/server/src/server-log-tee.ts:142-147 | lines and rest make up the text, and hold no newline |
| `LogLines.SplitIsUnique` | apps/server/src/server-log-tee.ts:142-147 | in one way only |
| `LogLines.SplitAppend` | apps/server/src/server-log-tee.ts:141-147 | a text in two chunks has the lines of the first and those of its rest with the second |
| `LogLines.LevelOf` | apps/server/src/server-log-tee.ts:159-182 | a line of the error stream is a warning exactly if it begins, after white space, with the prefix, which its record does without, and an error otherwise; standard output is information |
| `LogLines.LineEnding` | apps/server/src/server-log-tee.ts:142-150 | a carriage return before the newline changes nothing, and only a blank line has no record |
| `LogFiles.KeptAfterRotation` | apps/server/src/server-log-tee.ts:54-72 | a rotation gives up the oldest file and nothing else |
| `LogFiles.KeptAfterWrite` | apps/server/src/server-log-tee.ts:112-113 | a write appends to what is kept |
| `LogFiles.RotatedIsUnique` | apps/server/src/server-log-tee.ts:54-72 | moving every file up by one, the last only if there is one to move, has one result |
| `LogStreams.OnlyOldestIsLost` | apps/server/src/server-log-tee.ts:97-114 | if no rotation finds its stream not yet open, what was kept and what is logged is, in order, what rotations gave up and then what is kept; all files stay within the bound |
| `LogStreams.NothingElseIsLost` | apps/server/src/server-log-tee.ts:54-114 | in any run, whenever streams open, every record is kept, waiting or given up by a rotation, and none is doubled |
| `LogTurns.TurnFitsIff` | apps/server/src/server-log-tee.ts:97-114 | with several files: once the streams made in a turn have opened, in any order, the files are within the bound exactly if the turn rotated at most once |
| `LogTurns.StaysBoundedIff` | apps/server/src/server-log-tee.ts:97-114 | over any turns, the files are always within the bound exactly if no turn rotates twice |
| `LogTurns.SingleFileFitsIff` | apps/server/src/server-log-tee.ts:57-72 | a single file is within the bound exactly if all that was logged is |
| `LogTurns.BurstOverflows` | apps/server/src/server-log-tee.ts:141-147 | three records of more than half a file, logged in one turn, end past the bound with any number of files |
| `LogTurns.BurstSettles` | apps/server/src/server-log-tee.ts:141-147 | an order in which their streams open |
| `LogFiles.RotationFits` | apps/server/src/server-log-tee.ts:57-72 | with more than one file a rotation keeps every file within the bound |
| `LogTee.Tee.ShiftFiles` | apps/server/src/server-log-tee.ts:57-70 | the in-place renames move every file up by one, and replace the last only if there is a file to do so |
| `LogTee.Tee.Rotate` | apps/server/src/server-log-tee.ts:54-72 | the loop has the one result of a rotation of the files there are, the old stream may still wait, and the count of bytes starts again |
| `LogTee.Tee.Append` | apps/server/src/server-log-tee.ts:97-114 | a record goes to the current stream, open or not, after a rotation exactly if the bytes counted say that it would not fit |
| `LogTee.Tee.TakeLines` | apps/server/src/server-log-tee.ts:142-147 | complete lines are recorded in order, the rest waits |
| `LogTee.Tee.Write` | apps/server/src/server-log-tee.ts:130-155 | one write is a turn: it logs records while no stream opens |
| `LogTee.Tee.Run` | apps/server/src/server-log-tee.ts:122-157 | for any chunks of both streams, with streams of the log opening at any time, the records of a stream depend only on its whole text, and no record is lost but to rotations; calm runs keep order and bound |
| `WorldSeed.ReseedKeepsUnremovable` | apps/server/src/world-seed-loader.ts:374-392 | after a reseed a world is removable exactly if it was, or was unedited without a source and is now a file's |
| `WorldSeed.ReseedTakesPackage` | apps/server/src/world-seed-loader.ts:374-392 | an edited world stays as it is; any other takes everything from the package but its creation date and a source or storage that is set |
| `WorldSeed.UnmodifiedTakesPackage` | apps/server/src/world-seed-loader.ts:344-364 | a world that nobody edited has the content of its package once it is written |
| `WorldSeed.ReseedTwice` | apps/server/src/world-seed-loader.ts:374-392 | seeding the same package again changes nothing |
| `WorldSeed.KeptTransitive` | apps/server/src/world-seed-loader.ts:394-417 | protection carries over from one pass to the next |
| `WorldSeeder.LoadWorldPackages` | apps/server/src/world-seed-loader.ts:267-323 | the packages kept are those whose identity is claimed once, each once; complete exactly if all is readable and unique |
| `WorldSeeder.Seeder.SeedPackage` | apps/server/src/world-seed-loader.ts:344-364 | a loaded record is written with what the old one keeps, or the package is reported as not seeded; an edited record and one being deleted stay; no other world is touched |
| `WorldSeeder.Seeder.SeedWorlds` | apps/server/src/world-seed-loader.ts:333-371 | exactly the unclaimed, unique packages of this directory are written; it is complete whenever all load or are claimed |
| `WorldSeeder.RemovalAuthorized` | apps/server/src/world-seed-reconcile.ts:33-48 | a removal means all inventories were complete and loaded, none names the world, and some world is live |
| `WorldSeeder.Seeder.ReconcileSeededWorlds` | apps/server/src/world-seed-loader.ts:418-448 | exactly the unedited file worlds without a package, without sessions and not being deleted are removed |
| `WorldSeeder.Seeder.Pass` | apps/server/src/world-seed-reconcile.ts:6-61 | every change is authorized: a directory never replaces what one with priority claims, or may claim; nothing is removed without complete, non-empty inventories, or after a failure of the store; undisturbed, winning packages are seeded, and with complete inventories every dead seed is gone |
| `WorldSeeder.Seeder.Run` | apps/server/src/world-seed-reconcile.ts:6-61 | over any start-ups all changes are lawful; with no one else at the store protected worlds stay themselves, and if it does not fail either, every pass does its work |
| `WorldSeeder.SourcelessWorldIsLost` | apps/server/src/world-seed-loader.ts:374-392 | two passes after which a world that was no file's is gone |
| `WorldWatcher.Watcher.Fire` | apps/server/src/world-file-watcher.ts:166-175 | a reload is chained behind the newest of its directory |
| `WorldWatcher.Watcher.Start` | apps/server/src/world-file-watcher.ts:168-171 | a reload starts only after all before it of its directory have settled |
| `WorldWatcher.Watcher.InOrder` | apps/server/src/world-file-watcher.ts:168-171 | reloads of one directory never overlap and run in the order scheduled |
| `WorldWatcher.Watcher.NeverStuck` | apps/server/src/world-file-watcher.ts:168-175 | of a reload that has not started, it or one before it runs or may start |
| `WorldWatcher.Watcher.ChangeIsServed` | apps/server/src/world-file-watcher.ts:159-178 | while the watcher runs, a change waits for its timer or for a reload that can get to start |
| `WorldWatcher.Watcher.StoppedMeansQuiet` | apps/server/src/world-file-watcher.ts:312-322 | once `stop` has resolved no reload runs or will run |
| `WorldWatcher.Watcher.Run` | apps/server/src/world-file-watcher.ts:150-322 | the invariant of timers, chains and the map holds in any order of events |
| `Lexicographic.LexTrichotomy` | apps/desktop/src/app-update.ts:41-57 | of two sequences exactly one is before the other, or they are equal |
| `Lexicographic.LexStrictTotal` | apps/desktop/src/app-update.ts:41-57 | sequences of a strictly ordered type are strictly ordered |
| `Precedence.PrecedenceIsOrdered` | apps/desktop/src/app-update.ts:59-68 | precedence of section 11 of Semantic Versioning 2.0.0 is a strict total order |
| `Precedence.SectionElevenExample` | apps/desktop/src/app-update.ts:59-68 | the prereleases that section 11 gives as its example come in its order, before their release |
| `Precedence.CanonicalIff` | apps/desktop/src/app-update.ts:8-9 | the numbers of a version are exactly those written in decimal without a zero too many |
| `AppUpdate.NumericCompare` | apps/desktop/src/app-update.ts:26-30 | comparing lengths and then characters compares the numbers, however many digits |
| `AppUpdate.IdentifierCodes` | apps/desktop/src/app-update.ts:8-9 | identifiers are not empty and comprise ASCII digits, letters and hyphens |
| `AppUpdate.IdentifierCompare` | apps/desktop/src/app-update.ts:49-53 | two different identifiers compare as section 11 says |
| `AppUpdate.ComparePrerelease` | apps/desktop/src/app-update.ts:32-57 | below exactly when precedence says so, 0 only for identical prereleases |
| `Text.JoinSplit` | apps/desktop/src/app-update.ts:14 | splitting at a character and joining gives the text back |
| `Text.SplitJoin` | apps/desktop/src/app-update.ts:14 | joining parts without the character and splitting gives the parts back |
| `VersionText.ParseIffRendered` | apps/desktop/src/app-update.ts:8-24 | a text is read as a version exactly when it is that version with an optional letter and build metadata around it |
| `VersionText.PrecedentIsInjective` | apps/desktop/src/app-update.ts:59-68 | versions of equal precedence are identical but for letter and metadata |
| `VersionText.CompareVersions` | apps/desktop/src/app-update.ts:59-68 | null exactly for unreadable texts; otherwise the sign is the order of section 11, and 0 only for the same version |
| `BranchTexts.DedupedHas` | plugins/branch-reply/handler.js:430-440 | deduplicating keeps exactly the different texts that are not blank |
| `BranchTexts.DedupedIsProper` | plugins/branch-reply/handler.js:430-440 | what it keeps is trimmed, not empty and pairwise different |
| `BranchTexts.ParseVariants` | plugins/branch-reply/handler.js:357-371 | the loop with its early exit keeps the first usable variants, none the original |
| `BranchReply.NewTextsKeepOriginal` | plugins/branch-reply/handler.js:168-178 | a new set starts with the original, has at most the wanted size, and no text twice |
| `BranchReply.NewTextsAre` | plugins/branch-reply/handler.js:168-178 | a new set is the original and then the first usable texts of the model, two at most and no more than were asked for |
| `BranchReply.CreatedIff` | plugins/branch-reply/handler.js:150-220 | a new set is made exactly if 1 to 6 candidates are wanted, 3 unless named, and the selected one is among them |
| `BranchReply.AcceptAdopts` | plugins/branch-reply/handler.js:222-284 | a reply is accepted by its number: exactly that candidate becomes the turn's text, the set stays, and an unknown number changes nothing |
| `BranchReply.StepKeepsValid` | plugins/branch-reply/handler.js:64-284 | every action keeps a turn consistent: numbered distinct candidates, an adopted record exactly if accepted, with the accepted candidate's text |
| `BranchReply.RunKeepsValid` | plugins/branch-reply/handler.js:64-284 | over any actions candidate 0 stays the narration of the first seed that takes effect, whatever later seeds say |
| `BranchReply.LateWriteIsValidIff` | plugins/branch-reply/handler.js:150-220 | a set written after the turn has changed is consistent exactly if no reply is adopted now or one was when it was read |
| `BranchReply.LateWriteLeavesAdopted` | plugins/branch-reply/handler.js:150-220 | a run of actions, with a reply accepted during the wait, that ends inconsistent |
| `PointBuy.SpentOneMore` | scripts/e2e-plugin-verify.ts:1119-1127 | raising a field by one spends one point |
| `PointBuy.MinimumCostsNothing` | scripts/e2e-plugin-verify.ts:1119-1127 | a form with every number at its minimum, or at 0 where there is none, has spent nothing |
| `PointBuy.GrantIsFair` | scripts/e2e-plugin-verify.ts:1129-1136 | giving the next point to the first open field of the rotated queue lets nobody get two ahead |
| `PointBuy.QueueStaysOrdered` | scripts/e2e-plugin-verify.ts:1136 | moving that field to the end keeps the queue ordered by points given |
| `PointBuy.Form.Spend` | scripts/e2e-plugin-verify.ts:1108-1139 | spent and left make up the budget; caps hold; in the end nothing is left or all are at their cap; points are spread evenly |
| `SearchTokens.Tokenize` | apps/docs/.vitepress/config.ts:82-118 | both loops compute the terms of a text |
| `SearchTokens.WordsAreTheRest` | apps/docs/.vitepress/config.ts:87-88 | the words outside runs are everything but the separators, and not empty |
| `SearchTokens.WordsOf` | apps/docs/.vitepress/config.ts:87-88 | a word goes on up to the next separator, and is one word |
| `SearchTokens.IndexHas` | apps/docs/.vitepress/config.ts:82-97 | the index has, for every character of a run, the piece of up to four that begins there |
| `SearchTokens.PartIsFound` | apps/docs/.vitepress/config.ts:75-118 | every query term for any part of a run begins some index term, and the terms make up the part |
| `SearchTokens.QueryIsIndexed` | apps/docs/.vitepress/config.ts:82-118 | every query term for a whole text is one of its index terms |
| `SettingsFiles.Folder.FreeBackupPath` | apps/desktop/src/settings-json.ts:45-57 | the search ends in any finite folder, at the first name not in use |
| `SettingsFiles.Folder.Archive` | apps/desktop/src/settings-json.ts:67-81 | an unusable file moves, with its content, to a new name; all backups stay |
| `SettingsFiles.Folder.Backup` | apps/desktop/src/settings-json.ts:88-97 | a copy under a new name; all backups stay |
| `SettingsFiles.Folder.Write` | apps/desktop/src/settings-json.ts:132-178 | a writer replaces exactly the bundle it has read, or nothing |

## Left out

- Display text, locale and the labels of clocks: only the numbers of a reading are modelled.
- Amounts that are not integers: a request's amount is an integer; other numbers are refused by the first check on it.
- The parsing of clock definitions by zod: an accepted definition is a predicate, and its own loop is modelled.
- Symbolic links and canonical paths: two paths of the data root model are equal exactly if they are one directory.
- Windows paths: names are compared as they are, and a relative path has no drive.
- `DataRootCopy.Host.RemoveTree`: a removal succeeds unless the process dies in it; the code ignores its errors.
- Other processes during a copy: the caller promises that none has the database open.
- The choice of the binary on macOS and the opening and closing of the file in the fuse check.
- Abort signals and streams of requests: a child is anything tracked, an event stream included.
- Contents of the memory system's drain: only how many tasks are pending afterwards.
- A throw of `navigate` or of a synchronous `restart` in recovery, and the real length of delays.
- Finding the targets of an operation, overlaying request capabilities and reading usage.
- The classifiers of provider errors, and the streaming use of the fallback chain.
- Binary chunks cut inside a character, removal of terminal colours, time stamps and JSON of the log; failing renames,
  streams that cannot be opened, and records lost when the process ends.
- Loading a package's content: it gives a record or none.
- Reading and comparing a world in a reload: a reload starts and settles, and never rejects.
- The restart of a stopped watcher.
- `shouldPromptForUpdate`: one comparison with an ignored version.
- Splitting the model's answer at separator lines, and the limits on payloads of the reply actions.
- Character classes of the search terms, and positions in UTF-16: each character carries its class.
- Point-buy amounts that are not integers, and forms with two fields of one name.
- Other programs that write settings between the reading and the renaming of a file.
- HTTP routes, Electron windows, the web site and all calls of language, image and embedding models.
