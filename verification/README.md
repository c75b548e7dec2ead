# schedbench, verified

schedbench measures hypervisor schedulers. Inside each guest a small *worker* burns cpu and waits,
over and over, and prints how far it has got; outside, a *controller* prepares a cpu pool, starts
the workers, collects their reports until a timeout, saves the plan file, and later turns the
reports into averages, extremes and standard deviations.

This project models the parts of both whose behaviour is not obvious from reading one function,
and proves what they promise each other:

| part | files |
|---|---|
| the worker's clock and event engine | `Integers`, `Clock`, `EventEngine`, `EventHeap`, `EngineOrder`, `EngineThroughput`, `EngineFairness`, `EngineReports` |
| the run protocol and the plan loop | `Benchmark`, `Sender`, `RunProtocol`, `RunLoop`, `PlanRun` |
| the statistics | `Float`, `Reals`, `MinMax`, `Summary`, `Process`, `Interleaving`, `Mean`, `Deviation`, `SparseReports`, `SilentWorkers`, `MapOrder`, `WindowOrder`, `SetMean`, `IdleWorker`, `TwoReports` |
| worker, run and statistics joined | `EndToEnd` |
| cpu bitmaps and cpu pools | `Bitmap`, `BitmapText`, `BitmapDecode`, `Cpupool`, `Prep` |
| saving and expanding a plan | `Save`, `PlanMatrix` |

`dafny verify dfyconfig.toml` checks everything.

**How it is modelled.** Code that updates state in place is a class or a method with loops (the
linked list of the worker, the select loop, `Process`, bitmaps, pools, `Save`, `ExpandInput`), and
its contract ties the new state to a specification; what matters is then proved of the specification
for every input, every run or every interleaving. The world is a parameter: `now()` is a sequence of
clock readings about which nothing is assumed unless a lemma says so; channels, timer and signals are
events of a step relation; libxl and the file system are classes whose calls may fail at any time and
halfway. 64-bit wrap-around of the clock, of due times and of `kops_done` is written out. `float64`
is a real number, an infinity or NaN.

**What was found.** Where a promise fails, the exact condition is proved and a concrete case is given.

- Threads run in order of due time as long as no thread is put back due before the start it just ran. For
  waits below 2^63 ns that means: exactly as long as every `now() + wait` fits `int64_t`
  (`EngineOrder.DueOrderExact`, `EngineOrder.DueOrderIffPutBacksFit`, `EngineOrder.OverflowBreaksDueOrder`).
- A queued thread that is due at x runs exactly if, while it waits, no such sum overflows for a wait below
  2^63 + x + 2; once one has, it is never run. Longer waits that overflow keep it waiting only until the
  clock is as far past x as they are short of 2^64; for a wait of 1.5 * 2^63 that takes 146 years
  (`EngineFairness.StarvationExact`, `EngineFairness.StarvingInput`, `EngineFairness.DelayingInput`).
- The tick conversion is exact until `ticks * 10^6` leaves 64 bits, some two hours at 2.5 GHz, and one tick
  later the clock jumps back (`Clock.NowExact`, `Clock.NowJumpsBack`).
- `MinMax` uses 0 for "unset". What `Min` then holds is the least value since the last 0, unless something
  negative has been seen (`MinMax.MinLaw`). So a worker's average can be below its minimum, exactly if
  no window is negative, the last is not idle and all since the last idle one are above the average
  (`Mean.MeanWithinRecordedExtremes`, `Mean.IdleWindowBreaksMin`). For throughput this takes a worker that
  has a thread with 0 kops: the others are never seen idle (`Mean.BusyWorkerWindows`).
- The average of averages of a set is a number exactly if somebody in the set has reported and nobody
  exactly once. For a run without results it is NaN (`SparseReports.SetAverageIsNumber`,
  `SparseReports.SilentSetInput`).
- The order in which Go visits its map shows in the minimum of a set's averages exactly if somebody in the
  set has reported once and somebody has an average other than 0, or if none is negative, one is 0 and one
  is positive (`MapOrder.MapOrderMatters`, `MapOrder.NaNMinimum`, `IdleWorker.MapOrderInput`).
- The interleaving of the reports of different workers shows in the least window of their set exactly if no
  window is negative and there are two workers, the first of them idle in some window, such that the other
  was idle too and has another minimum, or was not idle and has a smaller one, or the first ended idle
  (`WindowOrder.InterleavingMatters`, `IdleWorker.InterleavingInput`). The greatest window never depends on it.
- If it is a number, the average of averages of a set can be below the minimum of its averages: exactly if none of these is
  negative, the last one visited is not 0, and all visited since the last 0 are above it
  (`SetMean.SetMeanExact`). One worker that is idle is enough (`IdleWorker.IdleFirstInput`).
- A worker that never reported counts as 0 in the average of averages but not in the extremes. If all who
  reported have a positive average, the average of averages is below the minimum exactly if they do not
  make up for the silent ones (`SilentWorkers.SilentWorkersExact`, `SilentWorkers.SilentWorkerInput`).
- The range checks in `Process` use `>` where `>=` is meant, so an id that is too large by one, or
  negative, panics instead of giving the error (`Process.Processor.Process`, `Process.OneTooLargePanics`). No
  run produces such an id (`EndToEnd.RunResultsInRange`).
- A domain that cannot be unpaused never sends `done`. The run then ends exactly on the first signal after
  whatever stopped it; after the timeout one signal is enough, and the run counts as completed
  (`RunProtocol.EndsExactly`, `RunProtocol.CanDrainIffNoneLost`, `RunProtocol.UnpauseFailureInput`).
- A run without workers returns neither an error nor `Completed` (`RunProtocol.NoWorkersNoResult`).
- `Save` names the backup of `d/x` `.d/x.tmp`. Without a directory `.d` the rename reports "not
  found", which is taken to mean that there is no old plan, and the old plan is overwritten in place
  (`Save.Save`, `Save.BackupDirectory`, `Save.SubdirectoryInput`).
- Cpu numbers -7 to -1 in a plan stand for the cpus 1 to 7 (`Bitmap.Slot`).

**Where the code and its documentation disagree** the code is followed.

- The comment on `Prep` (controller/run.go:158-163) and README.md:151-155 say that a pool that already
  matches is used as it is. For every pool but Pool-0 the code does so only if no cpus are given;
  otherwise it destroys and rebuilds the pool.
- The same comment says an unspecified scheduler matches any pool. When a pool has to be built an
  unspecified scheduler is an invalid one.
- README.md:155 says the pool asked for is created. The code creates a pool called `schedbench`
  whatever `Pool` says. The run then finds the pool built exactly if `Pool` says `schedbench` and no other
  pool has that name; preparing a run with another `Pool` twice leaves two that have
  (`Prep.RunsPoolExists`, `Prep.BuiltNamesDistinct`, `Prep.TwoOfOneNameInput`).
- README.md:168-170 says that the default pool is checked to *contain* the cpus. The code checks for
  equality, up to the size of the pool's map.
- README.md:132-137 calls `false` the default of `NumaDisable`. An expansion without that list leaves
  the pointer nil, and `Run` dereferences it (controller/run.go:341).
- README.md:241 mentions a standard deviation over windows. It is not computed.

## Model

| member | source | states |
|---|---|---|
| Clock.NowExact | worker/worker.c:62-72 | now() is the tick count scaled to nanoseconds and rounded down, exactly as long as the scaled count fits 64 bits and the quotient fits int64_t |
| Clock.SecondsExact | worker/worker.c:62-72 | s seconds after the start, now() is s * 10^9, within both bounds |
| Clock.NowExactFrom2kHz | worker/worker.c:62-72 | from 2 kHz on only the first of the two conditions matters |
| Clock.NowMonotone | worker/worker.c:62-72 | within those bounds a later tick never gives an earlier, or a negative, time |
| Clock.NowJumpsBack | worker/worker.c:62-72 | one tick past the bound the time is smaller than before, whenever the clock was started, exactly for the frequencies at which the time before was not 0 |
| Clock.DueExact | worker/worker.c:128 | the due time is now plus the wait exactly when that fits int64_t |
| Clock.DueInFigures | worker/worker.c:128 | the same with the ranges of int64_t and uint64_t in figures |
| Clock.OverlongWaitIsDueInThePast | worker/worker.c:128 | a wait that does not fit is due before now |
| Clock.SleepSplit | worker/worker.c:74-82 | the seconds and nanoseconds of nsleep stand for the requested wait, and the nanoseconds are in range exactly for non-negative waits and whole seconds |
| EventEngine.Slot | worker/worker.c:130 | an element goes before the first that is not due earlier, so before its equals |
| EventEngine.RunConserves | worker/worker.c:122-169 | no step of any run loses, duplicates or changes a thread |
| EventEngine.LoopHeadHoldsAllThreads | worker/worker.c:138-169 | whenever the loop tests the queue, it holds exactly the burnwait threads of the command line; once seeded it is never empty |
| EventEngine.KopsAccounted | worker/worker.c:203-216 | kops_done is the sum over all executions, modulo 2^64 |
| EventEngine.StepWork | worker/worker.c:203-213 | a step adds exactly the kops of the thread it takes off the queue, if any |
| EventHeap.Worker.Insert | worker/worker.c:122-134 | the insertion through the pointer to the link keeps the list complete, unshared and acyclic, adds one new node at the place found, and refines the sorted insertion |
| EventHeap.Worker.FindLink | worker/worker.c:130 | the walk stops at the link in front of the first element that is not due earlier |
| EventHeap.Worker.Report | worker/worker.c:171-186 | report() in place is the report step of the machine |
| EventHeap.Worker.Execute | worker/worker.c:155-165 | unlinking the head and doing its work is the pop of the machine; the node taken off is not reachable again |
| EventHeap.Worker.SleepUntilDue | worker/worker.c:145-153 | the inner loop returns only when the head is due |
| EventHeap.Worker.PutBack | worker/worker.c:215 | the thread is queued again, due its wait after the reading taken when its work is done |
| EventHeap.Worker.Seed | worker/worker.c:248-265 | the list built in main() holds the threads given, in order of the readings at which they were added |
| EventHeap.Worker.Loop | worker/worker.c:138-169 | over any clock readings the linked list and the globals are in the state of the machine after those readings |
| EngineOrder.RunKeepsSorted | worker/worker.c:122-134 | the queue is in order of due time at every point of every run, whatever the clock does |
| EngineOrder.RunNeverEarly | worker/worker.c:147-157 | no execution begins before it is due, under any clock |
| EngineOrder.DueOrderExact | worker/worker.c:122-169 | with a clock that does not go back and waits of any size, threads have run in order of their due times through the next reading exactly if no put-back was due before the start it followed |
| EngineOrder.DueOrderIffPutBacksFit | worker/worker.c:122-169 | for waits below 2^63, exactly if the due time of every put-back fitted |
| EngineOrder.DueOrder | worker/worker.c:138-169 | a bound known beforehand: if no wait overflows at any reading, the order holds over the whole run |
| EngineOrder.OverflowBreaksDueOrder | worker/worker.c:128 | with a wait that does not fit, a concrete run is out of order |
| EngineThroughput.ThroughputCeiling | worker/worker.c:138-169 | while no put-back overflows, under a clock that does not go back: by reading t, from the first reading n0, no more work is done than the sum over the threads of kops * (1 + (t - n0) / wait) |
| EngineFairness.OvertakesOnlyIfDueNoLater | worker/worker.c:130 | a thread put back goes in front of a queued one exactly if it is due no later |
| EngineFairness.PlaceLaw | worker/worker.c:122-169 | under any clock, the place of a waiting thread is where it started, less the executions since, plus the threads put back with a due time no later than its own |
| EngineFairness.ExecutedIsLogged | worker/worker.c:155-165 | a thread that leaves the queue has been executed, at a reading not before its due time |
| EngineFairness.OverdueRunsInTurn | worker/worker.c:122-169 | once readings are past its due time, and while nothing is put back in front of it, the thread at place p of the queue runs after exactly p other executions |
| EngineFairness.OverdueIsNotOvertaken | worker/worker.c:122-169 | the same while no put-back overflows, so at most one fewer executions than there are threads come first |
| EngineFairness.NoStarvation | worker/worker.c:122-169 | with any clock that gets past its due time for two readings for each thread, a queued thread is executed if no put-back overflows while it waits |
| EngineFairness.WaitsFitWhileWaiting | worker/worker.c:128 | none does if no wait overflows at any reading |
| EngineFairness.Starves | worker/worker.c:122-169 | as long as a thread's due times are not after those of the others, it has the worker to itself |
| EngineFairness.LongWaitStarves | worker/worker.c:122-169 | a thread with a wait of 2^63 or more has, until the clock is 2^64 less that wait past the due times of the others |
| EngineFairness.StarvingInput | worker/worker.c:248-265 | two concrete threads of which the second never runs, whatever the clock shows from 1 ns on: the wait of the first is 2^63 - 1, 2^63 or 2^63 + 1 |
| EngineFairness.DelayingInput | worker/worker.c:248-265 | with a wait of 1.5 * 2^63 the second does not run before 2^62 ns |
| EngineFairness.StarvationExact | worker/worker.c:122-169 | for waits of any size, due times x of any sign, and a clock that does not go back and gets far enough past x: a queued thread is executed exactly if no put-back of a thread with a wait below 2^63 + x + 2 overflows while it waits |
| EngineFairness.ClockGetsPast | worker/worker.c:122-169 | whatever the threads, far enough is a time that an int64_t can hold |
| EngineFairness.StarvationExactShort | worker/worker.c:122-169 | if all waits are below 2^63, far enough means past its due time, which is not negative: exactly if no put-back overflows |
| EngineFairness.LongWaitInput | worker/worker.c:128 | two concrete threads, one with a wait of 2^64 - 10 that overflows while the other waits and then runs |
| EngineFairness.RunsWithin | worker/worker.c:138-153 | if the clock gains at least 1 ns in every iteration of the loop and of the sleep inside it, that takes at most two readings for each nanosecond until the thread is overdue and two for each thread |
| EngineFairness.RunsAgainAfterItsWait | worker/worker.c:203-216 | a thread is next executed its wait or more after it was put back, and so after its last execution |
| EngineReports.ReportsTruthful | worker/worker.c:155-160 | every report gives the work done so far and exactly the largest delay of the executions since the report before it, or 0 |
| EngineReports.WorkerReportsTruthful | worker/worker.c:138-186 | so for any worker under any clock |
| EngineReports.ReportingGrid | worker/worker.c:171-186 | after k reports the next is due at n0 + k intervals; the first report is at n0 with no work done, and report number k + 1 comes after point k of the grid |
| EngineReports.ReportTimesDoNotDecrease | worker/worker.c:138-186 | with a clock that does not go back the times reported do not decrease |
| EngineReports.ReportTimesIncrease | worker/worker.c:138-186 | if the clock gains at least 1 ns from one iteration of the loop to the next, they strictly increase |
| EngineReports.CountersClimb | worker/worker.c:203-213 | while the work done fits 64 bits the counters reported never decrease |
| EngineReports.CountersIncrease | worker/worker.c:138-213 | and strictly increase if no thread has 0 kops |
| EngineReports.WorkerEmitsWellShaped | worker/worker.c:138-186 | what the controller relies on: positive first time, first counter 0, increasing times, counters that do not decrease |
| EngineReports.RunInput | worker/worker.c:122-216 | a concrete run of one thread, state by state: what is queued, printed and counted |
| Sender.EmittedIsTail | controller/xenworker.go:250-273 | exactly the lines after the first START JSON become reports, one each, in order, with the worker's own id and every other field as decoded |
| Sender.Worker.Process | controller/xenworker.go:237-278 | every line is logged, the reports of the lines after START JSON are sent and done comes last; only a Xen worker that cannot be unpaused sends nothing, not even done (controller/processworker.go:70-97 is the other kind) |
| RunProtocol.CollectMeaning | controller/run.go:361-413 | the results are what was received before the first stopping event, Stop is called at most once, and that event decides error and Completed |
| RunProtocol.ReturnMeaning | controller/run.go:361-413 | once the loop returns: Completed without error exactly if the timeout came first, and never neither error nor Completed |
| RunProtocol.RawFrozen | controller/run.go:368-373 | after the stop no message changes the results, Completed or the error |
| RunProtocol.NoWorkersNoResult | controller/run.go:356-367 | without workers the loop returns at once, with no error and not completed |
| RunProtocol.ControllerFollowsMessages | controller/run.go:367-411 | in every interleaving the controller's state is its own loop over the messages it received |
| RunProtocol.RunSafety | controller/run.go:356-413 | in every reachable state the counter is the number of started workers whose done is outstanding, every new report is of a started worker, and the reports kept of each worker are a prefix of what it sent, all of it until the stop |
| RunProtocol.LostWorkerBlocks | controller/xenworker.go:242-246 | a worker that could not be unpaused stays lost |
| RunProtocol.CanDrainIffNoneLost | controller/run.go:367-411 | from a reachable state the counter can still get to 0 exactly if no worker is lost |
| RunProtocol.AbortExact | controller/run.go:397-409 | in every interleaving: stopped exactly if something other than a report came, abandoned exactly if a signal came after that |
| RunProtocol.EndsExactly | controller/run.go:367-411 | in every interleaving the loop has returned exactly if all workers have exited or a signal came after the stop; with a lost worker exactly if such a signal came |
| RunProtocol.UnpauseFailureInput | controller/xenworker.go:242-246 | a concrete run with a lost worker: not over after the timeout, over after one signal, completed and without error |
| RunProtocol.RunOutcome | controller/run.go:361-413 | over all interleavings of a run with workers: results, number of stops, Completed and error as above |
| RunLoop.NewWorkerList | controller/run.go:89-122 | the list has exactly one new worker for every set and number below its count; an unknown type is an error exactly if there is a worker to make |
| RunLoop.BenchmarkRun.Run | controller/run.go:361-413 | the select loop over local variables and fields computes the controller's specification |
| PlanRun.SessionSound | controller/run.go:430-453 | every plan handed to Save, and the plan that can be read afterwards whether Save succeeded, failed or was interrupted, hold results only of completed runs; completed runs are unchanged and new results are those of one attempt that ended with the timeout |
| PlanRun.ResumedForEver | controller/run.go:430-453 | over any number of interrupted sessions the plan that can be read can be taken up again, and a completed run keeps its results |
| PlanRun.AttemptOutcome | controller/run.go:432-445 | a run is tried exactly if it is not completed and is ready and set up; then its reports are added, it is completed exactly by the timeout, or an interrupt without a runtime, and the session goes on exactly after the timeout |
| PlanRun.SessionRan | controller/run.go:430-455 | a session: what each run reached has become, that the plans saved are exactly those after each completed run, why it stopped, and which plan can then be read |
| PlanRun.CompletedIsSaved | controller/run.go:445-453 | so every completed run is in a saved plan |
| PlanRun.FinishedIsReadable | controller/run.go:430-455 | after a session that gets through all runs the plan that can be read is the one in memory |
| PlanRun.BenchmarkPlan.Try | controller/run.go:432-445 | a run is attempted only if it is not completed and Prep is ready, and its record changes as the attempt says |
| PlanRun.BenchmarkPlan.RunOne | controller/run.go:430-453 | one iteration: attempt, and save if the run is now completed |
| PlanRun.BenchmarkPlan.Run | controller/run.go:430-455 | the loop reaches the state of the session specification, gets to every run unless one of them stops it, and has saved what SessionRan says |
| MinMax.MinLaw | controller/benchmark.go:101-108 | what Min holds: the least value seen if one was negative, else the least value since the last 0, or 0 if there is none |
| MinMax.MinNotAbove | controller/benchmark.go:101-108 | when a value that is not below all others is not below Min either |
| MinMax.MinExact | controller/benchmark.go:101-108 | Min is the least value seen exactly if that is not 0 or 0 came last |
| MinMax.MaxExact | controller/benchmark.go:101-108 | Max is the greatest value seen exactly if that is not negative |
| MinMax.IdleWindowForgotten | controller/benchmark.go:105-107 | a concrete 0 that is lost, and one that is not |
| MinMax.PositiveExtremes | controller/benchmark.go:101-108 | on positive values both are exact |
| MinMax.PositiveExtremesOfSet | controller/benchmark.go:101-108 | and depend only on which values occurred |
| Process.Processor.Account | controller/benchmark.go:237-257 | one report closes one window of its worker and its set, unless it is the worker's first, and moves the worker's data on |
| Process.Processor.Read | controller/benchmark.go:213-258 | one report read gives the state of the grouped definition over one more report; an id out of range ends as the two checks and the indexing decide |
| Process.Processor.ReadAll | controller/benchmark.go:213-258 | the first loop reads everything exactly if all ids are in range, else stops at the first that is not |
| Process.Processor.Conclude | controller/benchmark.go:264-269 | a worker's totals and averages are those of its own reports |
| Process.Processor.VisitAll | controller/benchmark.go:260-273 | the loop over the map visits every worker that reported once, in whatever order, and gives each its totals and averages |
| Process.Processor.AverageSet | controller/benchmark.go:276-293 | total and average of the averages of a set |
| Process.Processor.DeviateSet | controller/benchmark.go:296-313 | the variance of the averages of a set about that average |
| Process.Processor.Process | controller/benchmark.go:194-317 | the one-pass computation fails exactly if an id is out of range; otherwise every set is what the definition from each worker's own reports says |
| Process.OneTooLargePanics | controller/benchmark.go:216-233 | concrete sets and ids that give the error, and others that pass the checks and panic |
| MinMax.InfiniteInput | controller/benchmark.go:101-108 | infinite values are ordered as they should be |
| MinMax.NaNLaw | controller/benchmark.go:101-108 | for any values, Max ignores NaN, and so does Min unless one came while it was 0; then it stays NaN |
| MinMax.MinNaNExact | controller/benchmark.go:101-108 | if none of the numbers is 0, Min is NaN exactly if the first value is |
| MinMax.ExtremesOfSet | controller/benchmark.go:101-108 | Max depends only on which values occurred; Min does too, unless they can show their order: a NaN and a number other than 0 occurred, or nothing negative, a 0 and something positive |
| Interleaving.SetWindowsAreWorkers | controller/benchmark.go:247-253 | the windows counted for a set are those of its workers, no more and no fewer |
| Interleaving.SetExtremesJoinWorkers | controller/benchmark.go:250-253 | a set's extremes enclose those of its workers and are attained |
| Interleaving.InterleavingIrrelevant | controller/benchmark.go:213-273 | if the windows and averages of a set are numbers or NaN that cannot show their order in Min, neither the interleaving of the reports nor the order of the map changes its summary |
| Interleaving.PositiveSetSettled | controller/benchmark.go:250-273 | those of a set whose windows and averages are all positive cannot |
| WindowOrder.InterleavingMatters | controller/benchmark.go:243-254 | for windows of any sign: two interleavings of the same reports give a set different minima exactly if none is negative and two of its workers clash: one idle in some window, and the other idle too with another minimum of its own, or never idle with a smaller one or beside a first one whose last window is idle |
| WindowOrder.IdleWorkersAgree | controller/benchmark.go:101-108 | without a clash, the minimum of the set is that of any worker that was idle |
| WindowOrder.MeasuredWindowsFinite | controller/benchmark.go:243-254 | windows are numbers if workers report as theirs do |
| Interleaving.SetWindowExtremes | controller/benchmark.go:250-253 | the law of Min for the windows of a set; the greatest window never depends on the interleaving, the least only if windows of 0 are among positive ones and none is negative |
| Mean.WindowInFigures | controller/benchmark.go:80-92 | a window in figures: kops * 10^9 by nanoseconds, and cpu time by time |
| Mean.WindowOfNoTime | controller/benchmark.go:80-92 | between reports with the same time it is infinite, or NaN if nothing changed |
| Mean.AverageInFigures | controller/benchmark.go:268-269 | an average in figures: the last counter * 10^9, and cpu time, by the time since the first report with a time |
| Mean.WindowsFromFirstTimed | controller/benchmark.go:243-254 | reports with time 0 at the beginning do not count |
| Mean.TotalsOfWorker | controller/benchmark.go:264-266 | a worker's entry has its reports, the last counter, and time and cpu time from the first report with a time to the last |
| Mean.WindowsArePairs | controller/benchmark.go:243-254 | with a first time other than 0 there is one window for each two neighbouring reports |
| Mean.AverageBetweenWindows | controller/benchmark.go:247-269 | the average over a trace of any length is between the least and the greatest window |
| Mean.MeanBetweenExtremes | controller/benchmark.go:247-269 | with positive windows the reported average is between the reported extremes, for throughput and for utilization |
| Mean.MeanWithinRecordedExtremes | controller/benchmark.go:243-269 | for windows of any sign: the average is never above the recorded maximum, and not below the recorded minimum exactly if a window is negative, or the last one is 0, or one since the last 0 is not above the average |
| Mean.IdleWindowBreaksMin | controller/benchmark.go:105-107 | a concrete trace reported with an average below its minimum |
| Mean.BusyWorkerWindows | worker/worker.c:138-213 | if no thread of a worker has 0 kops, all its throughput windows are positive |
| Mean.WorkerAverageReported | controller/benchmark.go:247-269 | what a worker prints on a clock that gains 1 ns per iteration is summarised with its averages between their extremes: for throughput if no thread has 0 kops, and for either if its windows are positive |
| Deviation.ComputedVariance | controller/benchmark.go:282-311 | the variance the second loop computes of a set's averages is mean of squares minus square of mean |
| Deviation.InfiniteAverage | controller/benchmark.go:282-311 | an infinite average makes mean infinite or NaN, and the spread NaN |
| Deviation.VarianceBound | controller/benchmark.go:303-311 | and at most (max - mean) * (mean - min) |
| Deviation.VarianceZero | controller/benchmark.go:303-311 | it is never negative, and 0 exactly if all averages are the mean |
| Deviation.PositiveSpread | controller/benchmark.go:282-313 | for positive averages the recorded extremes bound mean and variance: the variance is also at most a quarter of the squared range, and 0 exactly if the extremes are equal |
| Deviation.DeviationBounds | controller/benchmark.go:271-314 | all this holds of every set in the report in which every worker reported a positive average |
| SparseReports.SingleReportAverage | controller/benchmark.go:264-269 | a worker with one report has NaN for both averages |
| SparseReports.SetAverageIsNumber | controller/benchmark.go:276-293 | for any set whose workers report as theirs do, or not at all, the average of averages is a number exactly if the set has workers, one of them has reported, and none exactly once; else it is NaN |
| SparseReports.SilentSetInput | controller/benchmark.go:276-293 | a concrete set of two with no reports: its whole summary, NaN for both averages |
| MapOrder.NaNMinimum | controller/benchmark.go:260-273 | for any order, the minimum of the averages of a set is NaN exactly if a worker that reported once is visited when no average was negative and the last number, if any, was 0 |
| MapOrder.FirstWorkerDecides | controller/benchmark.go:260-273 | if no average is 0, exactly if the first of its workers to be visited has reported once |
| MapOrder.MapOrderMatters | controller/benchmark.go:260-273 | for averages of any sign: two orders of the map give different minima exactly if somebody in the set has reported once and somebody has an average other than 0, or none is negative, one is 0 and one positive |
| IdleWorker.MapOrderInput | controller/benchmark.go:260-273 | two concrete workers with two reports each, minimum 10 or 0 |
| IdleWorker.InterleavingInput | controller/benchmark.go:250-253 | their reports interleaved in two ways, least window 10 or 0 |
| SetMean.SetMeanExact | controller/benchmark.go:260-293 | for averages of any sign, with or without silent workers, if nobody has reported exactly once: the average of averages is never above the recorded maximum, and not below the recorded minimum exactly if an average is negative, or the last one visited is 0, or one visited since the last 0 is not above it |
| SetMean.SetTotals | controller/benchmark.go:276-293 | the total of a set is the sum of its workers' averages, and the average of averages times their number |
| SetMean.TotalNotBelow | controller/benchmark.go:276-293 | so at least each of them if none is negative |
| TwoReports.SummaryInput | controller/benchmark.go:194-317 | a concrete run of two workers: every field of its summary |
| IdleWorker.IdleFirstInput | controller/benchmark.go:260-293 | the same two workers: average 5 and minimum 10 |
| SilentWorkers.SilentWorkersExact | controller/benchmark.go:260-292 | for a set of which only some have reported, with positive averages: the average of averages is never above the recorded maximum, and not below the recorded minimum exactly if what the reporters have above that minimum is as much as the minimum once for every silent worker |
| SilentWorkers.SilentEntry | controller/benchmark.go:221-224 | the entry of a silent worker is all zeros |
| SilentWorkers.EqualAveragesWithSilence | controller/benchmark.go:260-292 | with equal averages and a silent worker it is always below |
| SilentWorkers.SilentWorkerInput | controller/benchmark.go:260-292 | a concrete set of two with average 5 and minimum 10 |
| EndToEnd.RunResultsInRange | controller/run.go:89-122 | a run's reports carry ids of its workers, so Process neither fails nor panics on them |
| EndToEnd.RunKeepsPrinted | controller/run.go:368-373 | what a run keeps of a worker is the beginning of what that worker printed: times, counters and delays |
| EndToEnd.EntryIsWorker | controller/benchmark.go:260-269 | a worker's entry in the summary of its set is the summary of its own reports |
| EndToEnd.AverageBetweenExtremes | controller/benchmark.go:237-273 | from the worker's clock, over every interleaving of the run and every order of the map, to an entry of the summary whose averages are between their extremes: for throughput if no thread has 0 kops, and for either if the windows are positive |
| Bitmap.GrowthKeepsBits | controller/libxl.go:291-298 | growing a bitmap changes no bit |
| Bitmap.BitsInFigures | controller/libxl.go:282-298 | bit 8 * i + k is worth 2^k in byte i |
| Bitmap.TestIn | controller/libxl.go:282-289 | Test is membership |
| Bitmap.Bitmap.Set | controller/libxl.go:291-298 | insertion, under any growth; for numbers -7 to -1 of another bit |
| Bitmap.Bitmap.SetRange | controller/libxl.go:300-304 | union with an interval |
| Bitmap.Bitmap.Clear | controller/libxl.go:306-313 | removal; the length stays |
| Bitmap.Bitmap.ClearRange | controller/libxl.go:315-319 | difference with an interval |
| Bitmap.EmptyBytes | controller/libxl.go:325-332 | emptiness of the set, whatever the length |
| Bitmap.AndBytes | controller/libxl.go:334-349 | intersection, whatever the two lengths |
| Bitmap.SlotsOfRange | controller/libxl.go:300-319 | for non-negative numbers the interval is the interval |
| BitmapText.String | controller/libxl.go:351-394 | the text printed is that of the maximal ranges of the set, in increasing order and separated by gaps |
| BitmapText.RangesAreMaximal | controller/libxl.go:351-394 | no range can be extended in either direction |
| BitmapText.RangesUnique | controller/libxl.go:351-394 | a set has only one such list |
| BitmapDecode.DecimalRoundTrip | controller/libxl.go:365 | a number printed in decimal is read back |
| BitmapDecode.DecimalShape | controller/libxl.go:365 | without a leading zero |
| BitmapDecode.DecimalInput | controller/libxl.go:365 | 0, 7 and 20 in characters |
| BitmapDecode.DecimalUnique | controller/libxl.go:365 | which is the only such text that is read as the number |
| BitmapDecode.RangeAndNumber | controller/libxl.go:351-394 | a range and a number in characters, as in 1-3,10 |
| BitmapDecode.PrintRoundTrip | controller/libxl.go:351-394 | reading the comma list of n and n-m gives back exactly the set of bits |
| BitmapDecode.PrintedAlikeIffEqual | controller/libxl.go:351-394 | two bitmaps print alike exactly if they hold the same bits, even with different lengths |
| Cpupool.ShrinkConserves | controller/libxl.go:598-617 | cpus taken from a pool are free: pools stay disjoint and no cpu is lost |
| Cpupool.DropConserves | controller/libxl.go:526-541 | the same when a pool is destroyed |
| Cpupool.AddConserves | controller/libxl.go:496-524 | the same when a pool is created from free cpus |
| Cpupool.Context.CpupoolFindByName | controller/libxl.go:627-638 | the first pool of that name, if there is one |
| Cpupool.Context.CpupoolMakeFree | controller/libxl.go:640-654 | from the list made at the start, every pool is left with exactly its old cpus less the request, and the requested cpus of the host are free; after a failure no pool has lost any other cpu |
| Prep.CpuMatches | controller/run.go:231-239 | the maps match exactly if the pool's cpus are the requested ones that its map can hold |
| Prep.FitIsExact | controller/run.go:226-239 | then they are the request itself exactly if that has no cpu beyond the map |
| Prep.Prep | controller/run.go:179-313 | on every path, failures included, no cpu is created or lost and pools stay disjoint; Pool-0 and runs without cpus change nothing and are ready exactly if the pool fits; a scheduler that was not specified is never a mismatch; otherwise ready means the pool was built anew, no other pool lost a cpu that was not asked for, and only a fault of libxl can prevent it |
| Prep.ObstacleExactly | controller/run.go:216-270 | why a pool that is not built anew is refused: missing, another scheduler where one was asked for, or cpus that differ where any were asked for |
| Prep.RequestIsListed | controller/run.go:179-200 | the cpus asked for are those listed |
| Prep.BuiltFromHost | controller/run.go:297-312 | the pool built takes only cpus of the host, and shares none |
| Prep.RunsPoolExists | controller/run.go:304-312 | after a construction on any host, the run finds a pool exactly if its own is called schedbench or another of its name was left, and one with the scheduler and cpus asked for exactly if its own is called schedbench and no other is |
| Prep.RunsPoolAmongDistinct | controller/run.go:304-312 | if no name was used twice, the two conditions are one: its own is called schedbench |
| Prep.NamesStayDistinct | controller/run.go:179-313 | however Prep ends, names stay distinct if no other pool is called schedbench |
| Prep.BuiltNamesDistinct | controller/run.go:304-312 | after a construction exactly then |
| Prep.TwoOfOneNameInput | controller/run.go:304-312 | a concrete host on which Prep is ready and the run finds another pool, without cpus |
| Prep.GetCpumap | controller/run.go:315-329 | the cpus of the run's pool; it panics exactly if that does not exist |
| Prep.SoftAffinity | controller/run.go:341-350 | the soft affinity, read back, is the set of cpus of the run's pool |
| Save.Disk.WriteFile | controller/benchmark.go:432 | what a crash can leave of a file being written: a beginning of it |
| Save.Write | controller/benchmark.go:432-443 | with the old plan kept aside, every crash leaves a complete plan, and a failed write is rolled back unless that fails too; without, the first thing seen is a lost plan |
| Save.Save | controller/benchmark.go:410-444 | if the backup's directory exists, every crash leaves the old or the new plan complete; if not, touching the disk means a crash that leaves none; success leaves the new plan, and no backup unless removing it fails; a rolled back failure leaves the old one; it fails only if the rename or the write does; no other file changes |
| Save.OthersSameExactly | controller/benchmark.go:422 | "no other file" means none but the plan and "." + plan + ".tmp" |
| Save.BackupDirectory | controller/benchmark.go:422 | a plan in the current directory is backed up there, a plan d/x in the directory .d |
| Save.SubdirectoryInput | controller/benchmark.go:422 | a concrete plan whose backup belongs in another directory |
| PlanMatrix.MatrixIndex | controller/plan.go:117-150 | run (b * S + s) * D + d carries exactly base b's worker sets, scheduler s and flag d |
| PlanMatrix.MatrixContents | controller/plan.go:79-150 | that run in terms of the input: a baseline has one worker of that preset, once; a mix has every worker as often as the count says; ten seconds; scheduler and flag as listed, or none |
| PlanMatrix.FactorExactly | controller/plan.go:117-150 | S and D are the numbers of schedulers and flags listed, or 1 |
| PlanMatrix.KnownExactly | controller/plan.go:82-86 | a worker is valid if it has a preset with arguments |
| PlanMatrix.Baselines | controller/plan.go:79-94 | one baseline a worker, or the first worker without a preset |
| PlanMatrix.Mixes | controller/plan.go:97-115 | then one run a count, with all workers that many times |
| PlanMatrix.CrossSchedulers | controller/plan.go:118-129 | every base under every scheduler, in that order |
| PlanMatrix.CrossFlags | controller/plan.go:132-150 | every run with every flag, each in a cell of its own |
| PlanMatrix.BenchmarkPlan.ExpandInput | controller/plan.go:47-157 | the runs of a plan are the full crossing, counted and placed by the index law, with distinct new flag cells; each error occurs exactly when it should and leaves the runs alone |

## Left out

- The burn loop's memory accesses and `worker_setup`: an execution is the clock advancing and `kops_done` growing.
- `rdtsc`, the real `nanosleep` and its uninitialised `rc`: clock readings are given; a sleep may last any time.
- Signed overflow in `start_ns - now()` and in `next_report`, which C leaves undefined: both are unbounded here.
- Command-line parsing of the worker, and its endless loops without `kHZ`: `Clock.Now` asks for a frequency that is not 0, `EventHeap.Worker.Seed` gets the threads.
- EventHeap.Worker.Loop: ends when the readings given are used up; the real loop does not end.
- Rounding and negative zero of `float64`; `math.Sqrt`, so results are about the variance whose root is reported.
- JSON decoding and the cpu times asked of libxl: the decoder is a parameter of the sender.
- The launch of domains and processes, consoles, configuration files and xenstore; `Report`'s printing.
- What precedes the select loop in `Run`, apart from the worker list and the soft affinity: `PlanRun` knows only that it may fail. The panic on a nil `NumaDisable` is noted above.
- Sharing of one base's worker sets by its runs in memory after an expansion: they are values in `PlanMatrix`; the program saves and reloads the plan before it runs anything.
- Run labels, presets' contents beyond their presence, `ClearRuns`, and loading a plan.
- Nil and empty slices are one in `Bitmap` and `Process`; Go's `Test` of a negative bit on a bitmap that `And` made of two empty ones would panic.
- Bitmap.Bitmap.Set: bits below -7 make the code panic and are excluded, here and in `Prep`.
- libxl itself: `Cpupool.Context` says only what its calls can do to pools and cpus, and nobody else changes them meanwhile. That Pool-0 exists is assumed.
- Prep.Prep: when a libxl call has failed, the reason given is not tied to the call.
- PlanRun.SessionSound: takes from `Save` that the old or the new plan can be read after a failure; that a plan is lost for want of a backup is the subject of `Save.Save`.
- The summary that is left behind when `Process` fails halfway.
- Process.Processor.Process: begins without a summary; `checkSummary` returns early when there is one.
- Text and HTML reports, and the scripts around the programs.
