# Verified model of the operations console's core logic

The repository runs a small operations platform: a web console that reports reliability,
incidents, capacity and history, and a bridge that starts, stops and restarts one
container through a Go worker and a Python root executor. This project models the parts
of it that hold the hard logic and proves what they promise. `dafny verify
dfyconfig.toml` checks everything.

- **Downtime** (`Intervals`, `Downtime`, `MaintenanceScopes`, `BurnRate`, `SloBudgets`).
  Incidents are clipped to a range, maintenance windows that apply to an incident are
  subtracted from it, and the rest is swept into a length. The reference is a set of
  millisecond instants with no interval in sight: an instant counts when some incident
  is down then and no window that applies to that incident excuses it. The sweep and the
  cursor subtraction are proved to compute exactly that set's size. Burn rates over
  three nested lookbacks and the SLO budget follow from it. Which windows excuse an
  incident is said field by field of their scopes.
- **Incident episodes** (`ContainerEvents`, `ContainerIncidents`, `ContainerEpisodes`,
  `ChartKinds`, `ChartBands`, `SignalRules`, `RegionMerge`, `BackupEpisodes`,
  `BackupCounts`). Three loops over one container's events (open signals, recovered
  episodes, chart bands) are proved to keep the signals open that the events alone say
  are open: started, and since then neither stopped nor swept away by a change of the
  expected state. From the events alone it is also said which episodes begin, last and
  end, and which kind a chart shows at an instant: the strongest among the open signals,
  each with the kind of its latest start. What an event does to a signal is said by the
  event's fields. The backup loop has its own invariant, and its counts are said of the
  runs alone. Chart regions are coalesced with a one-second tolerance.
- **Lifecycle jobs** (`LifecycleReports`, `LifecycleTime`, `LifecycleLooks`,
  `Lifecycle`, `JobProtocol`, `JobOutcomes`, `JobReasons`, `JobRequests`, `JobFlow`).
  The executor's actions run against a docker that answers each call arbitrarily and
  after arbitrary seconds. The worker, the job store and the executor form a transition
  system in which messages are lost or late and either side crashes between any two
  steps; the theorems hold of every finite run.
- **Capacity trend** (`Reals`, `Regression`, `Forecast`, `ForecastMeaning`). The
  weighted least-squares fit in exact arithmetic, and the forecast states read off it.
- **Login states** (`OAuthStates`, `OAuthCookies`, `BigEndian`, `Base64Url`,
  `OAuthAttempt`). The state cookie is a string that behaves as a queue of at most four
  states; the signed attempt is a byte format that reads back exactly what was written.

`Sorting`, `Sets` and `Wrappers` hold the stable sort, set sizes and optional values.

Where the source computes with expressions the model uses functions; where it updates
variables in a loop the model is a method with the same loop, proved equal to a function
or to the property itself; the executor and the backup signal record are classes with
the source's mutable fields. Every lemma turns automatic induction off.

## How the parts are modelled

- Timestamps are whole milliseconds; printing and parsing an ISO timestamp undo each
  other; an unreadable timestamp is an absent one. `localeCompare` is a total order that
  agrees with equality and is a parameter.
- Rates, percentages and the fit are exact reals. `Number.EPSILON` is two to the power
  of minus 52.
- The job store is the SQL of the bridge (supabase/migrations/202609010001 and 0002,
  202608040005): it sets a status only if the expected one still holds. Leases that
  lapse, operators who cancel and new jobs are steps the store takes at any time. Owners
  and lease times are not compared, so the model's store grants strictly more than the
  real one, apart from transitions no party of the bridge requests (leased to failed); a
  request the real store refuses for them is one that was lost. The code
  `operation_lease_expired` of an expired job is not recorded.
- Docker is any function from the number of a call to what it does: raise, fail, answer
  anything, and after how many seconds. The clock only moves in docker calls and sleeps.
- HMAC, SHA-256 and the return-path sanitizer are arbitrary functions with 32-byte
  results and a non-empty path. A path is its UTF-8 bytes.

## Where the code does less than one might expect

- Chart bands. The loop emits a band only when an event changes the strongest kind, so
  an instant after the last such event is in no emitted band; `OpenBandNotEmitted` is an
  input where that hides an open failure. `EmittedExactly` says which instants emitted
  bands show, and `EmittedBandsComplete` when they show all: exactly if the events leave
  nothing open, or one at the last instant changes the strongest kind. With the open
  band added the bands show every instant (`BandsRefineFold`).
- Restart time. Every wait starts its last look before its deadline, so with docker
  calls of at most d seconds a restart takes less than 182 + 6d seconds, and for d of
  2/59 seconds or more some restart comes as near to that as one likes. All restarts
  therefore end before a limit if and only if 182 + 6d is within it; `EndsBefore` gives
  the condition for every action, limit and d, shorter calls included. All actions end
  before the worker's default result timeout of 225 seconds exactly if calls take at
  most 43/6 seconds (`EndsBeforeWorkerTimeout`), and some restart outlasts even the
  largest timeout the worker accepts, 240 seconds, exactly if calls may take more than
  29/3 seconds (`OutlastsWorker`), as the executor's limit of 15 seconds a call lets
  them.
- Executions. A request is published at most once, but an executor that crashes after
  beginning an action finds the request again. `AtMostOnce` bounds executions by one
  plus those crashes, and `BoundIsReached` shows a run that needs every one of them.
  That run ignores the age of the request, of which the executor takes none older than
  30 seconds (deploy/oci/ivrm-mc-main-lifecycle.py:22, 117-123), so its crashes would
  all have to fit into that time: leaving the check out adds runs, which is sound for
  the bound but not for reaching it.
- The worker's codes `executor_failed` and `executor_result_invalid` guard against
  results no executor writes: no run records them (`FailedMeansReported`).

## Model

The main results come first. Rows whose text starts with "Table:" spell out a case table of the
source in its inputs and numbers; those that start with "Step:" are the lemmas the results rest on.

| member | source | states |
|---|---|---|
| Intervals.UnionSeconds | apps/web/lib/reliability-metrics.ts:33-50 | the sweep returns the whole seconds of the exact measure of the union of the intervals |
| Intervals.SubtractIntervals | apps/web/lib/reliability-maintenance-metrics.ts:69-97 | the cursor scan is exact set difference; its output is non-empty intervals inside the source, in order and apart |
| Downtime.OutOfMemoryAlwaysCounts | apps/web/lib/reliability-maintenance-metrics.ts:17-39 | an out-of-memory kill counts whatever windows are planned |
| Downtime.CollectMaintenanceAdjustedDowntime | apps/web/lib/reliability-maintenance-metrics.ts:116-175 | raw and counted seconds are a thousandth of the sizes of the raw and counted instant sets, and coverage is exact when every active incident has an exact start |
| MaintenanceScopes.CountedByScope | apps/web/lib/reliability-maintenance-metrics.ts:116-175 | for any incidents and windows the counted seconds are those of the instants at which some incident is down and no window then in force has one of the scopes that excuse it |
| MaintenanceScopes.ForeignWindow | apps/web/lib/reliability-maintenance-metrics.ts:41-67 | a window for anything else changes no figure |
| MaintenanceScopes.FullWindow | apps/web/lib/reliability-maintenance-metrics.ts:41-67 | a window of a fitting scope over the whole range leaves nothing to count |
| Downtime.CollectKnownDowntime | apps/web/lib/reliability-metrics.ts:52-81 | the older loop returns the raw seconds and coverage of the maintenance-adjusted one, for every list of windows |
| Downtime.Conservation | apps/web/lib/reliability-maintenance-metrics.ts:166-174 | counted never exceeds raw, raw is counted plus excluded, and the range bounds both, so the clamp at zero never acts |
| Downtime.OrderIrrelevant | apps/web/lib/reliability-maintenance-metrics.ts:116-175 | the figures depend only on which incidents and windows there are, not on order or duplicates |
| Downtime.SplitIrrelevant | apps/web/lib/reliability-maintenance-metrics.ts:116-175 | one outage or two back-to-back ones give the same figures |
| Downtime.MoreMaintenance | apps/web/lib/reliability-maintenance-metrics.ts:19-67 | adding or extending windows leaves raw and coverage alone and never raises counted |
| Downtime.OverallIsUnion | apps/web/lib/reliability-maintenance-metrics.ts:177-205 | overall seconds lie between the largest service's and the sum plus two seconds of rounding; overall is exact iff all three are |
| BurnRate.LookbackMonotone | apps/web/lib/reliability-burn-rate.ts:130-180 | a longer lookback counts at least as much, and none more than its length |
| BurnRate.BurnOrdering | apps/web/lib/reliability-burn-rate.ts:20-43 | burn1h is at most 6 burn6h, which is at most 24 burn24h, and each lies between 0 and 100 / (100 - target) |
| BurnRate.AlertsExactly | apps/web/lib/reliability-burn-rate.ts:66-100 | the state in seconds: coverage_unknown exactly on incomplete data, else critical iff the last hour burns 14.4 and the last six 6 times their budget, warning iff six hours burn 6 and the day 3 times |
| BurnRate.ReportedStates | apps/web/lib/reliability-burn-rate.ts:182-232 | every service is reported once: as unavailable without policies or windows, unconfigured without an enabled target, otherwise in its state |
| BurnRate.ReportedAlerts | apps/web/lib/reliability-burn-rate.ts:182-232 | a service is reported critical, warning, coverage_unknown or unconfigured exactly as its target, its data and its burnt seconds say, and alerts only for targets at which an alert is reachable |
| BurnRate.CriticalReachable | apps/web/lib/reliability-burn-rate.ts:78-86 | some snapshot is critical if and only if 100 / (100 - target) is at least 14.4 |
| BurnRate.AlertReachable | apps/web/lib/reliability-burn-rate.ts:78-95 | some snapshot alerts if and only if 100 / (100 - target) is at least 6 |
| BurnRate.MaintenanceNeverEscalates | apps/web/lib/reliability-burn-rate.ts:66-100 | planning or extending maintenance never raises an alert or its severity |
| BurnRate.BudgetAgreesWithBurnWindow | apps/web/lib/reliability-slo.ts:200-263 | for 24 hours, whenever a budget has a burn rate it is the 24-hour burn window's rate of that service |
| BurnRate.BudgetMeaning | apps/web/lib/reliability-slo.ts:265-360 | observed availability is the unclamped free share; the budget is exhausted exactly when that share is at or below the target, exactly when nothing remains |
| ContainerIncidents.DeriveOpenSignals | apps/web/lib/incidents.ts:258-294 | the loop returns the map of open signals of the events |
| ContainerIncidents.OpenSignalsMeaning | apps/web/lib/incidents.ts:258-294 | a signal is in the map iff it is open by the reference; its start event is the first it has been open since; it is critical iff a critical event started it since then |
| ContainerIncidents.DeriveRecoveredContainerIncidents | apps/web/lib/incidents.ts:502-591 | the loop returns the recovered episodes of the fold |
| ContainerIncidents.RecoveredAlways | apps/web/lib/incidents.ts:535-587 | a recovered episode runs from an alarming to a later non-alarming event with readable, ordered times, whole-second duration and the maximum severity of its alarming events |
| ContainerIncidents.RecoveredIncidentsFit | apps/web/lib/incidents.ts:502-591 | with ordered readable times, recovered episodes never overlap and their durations fit into the span of the events |
| SignalRules.LoopsAfter | apps/web/lib/incidents.ts:141-178 | in all three loops an event opens the signal its type is for exactly if it is a warning or critical; otherwise it closes that signal exactly by a recovery, "healthy", zero, or the state expected of the container, and every signal by a change of the expected state; the chart's kind is that of the severity |
| SignalRules.LastSignalCleared | apps/web/lib/incidents.ts:563-587 | the event that clears the last open signal reports the episode, with its two events, severity, times, duration and count, if its times are readable, in order and in range |
| ContainerEpisodes.EpisodeExact | apps/web/lib/incidents.ts:510-587 | the loop's open episode is the one that, by the events alone, began while nothing was open and lasts; its event count is that of its alarms and of the signals they resolve |
| ContainerEpisodes.RecoveredExactly | apps/web/lib/incidents.ts:543-587 | an episode from event i to event k is reported if and only if it ends at k, with readable times in order and in range |
| ContainerEpisodes.RecoveredCounts | apps/web/lib/incidents.ts:520-545 | a reported episode counts exactly its related events |
| ContainerEpisodes.EpisodesAccountedFor | apps/web/lib/incidents.ts:510-587 | every episode that begins has exactly one fate: the loop still holds it open, reports it as recovered by one event, it ended unreadable or out of range, or one change of the expected state discarded it |
| ChartBands.BandTracksSignals | apps/web/lib/history-status-overlays.ts:280-287 | in every reachable state the band kind is the strongest open signal's, and a band has a start exactly when it has a kind |
| ChartBands.LateStartNeverFires | apps/web/lib/history-status-overlays.ts:364-373 | when an event leaves the strongest kind unchanged there is never a kind without a band start, and bands and start stay as they are |
| ChartBands.ChartSignalsAreOpen | apps/web/lib/history-status-overlays.ts:337-362 | the chart loop's open signals are the reference's |
| ChartBands.ChartKindsMeaning | apps/web/lib/history-status-overlays.ts:351-360 | the loop holds a signal with a kind exactly when it is open and its latest starting event has that kind |
| ChartBands.ThreeFoldsAgree | apps/web/lib/history-status-overlays.ts:337-362 | after any readable events the three loops have the same open signals, and an episode exists iff that set is not empty |
| ChartBands.ErrorIsCritical | apps/web/lib/incidents.ts:258-294 | a signal the chart shows as an error is critical in the incident loop's map of open signals |
| ChartBands.BandsSequential | apps/web/lib/history-status-overlays.ts:364-397 | emitted bands follow one another and end no later than the open band starts |
| ChartBands.BandsRefineFold | apps/web/lib/history-status-overlays.ts:337-397 | for readable times in order, an instant is in an emitted or open band of a kind exactly when that is the strongest kind among the signals left open by the events up to then, each with the kind of its latest start |
| ChartBands.OpenBandMeaning | apps/web/lib/history-status-overlays.ts:364-397 | the open band holds exactly the instants of its kind after which no event changes the strongest kind |
| ChartBands.EmittedExactly | apps/web/lib/history-status-overlays.ts:364-397 | an instant is in an emitted band of a kind if and only if that kind was strongest then and some later event changes the strongest kind |
| ChartBands.EmittedBandsComplete | apps/web/lib/history-status-overlays.ts:364-397 | emitted bands alone show every instant before the last event if and only if the events leave nothing open or one at or after that last instant changes the strongest kind |
| ChartBands.OpenBandNotEmitted | apps/web/lib/history-status-overlays.ts:364-397 | two events after which an instant between them is in no emitted band although a signal was open |
| ChartBands.ContainerIncidentRegions | apps/web/lib/history-status-overlays.ts:319-437 | a region of a kind is shown at an in-range instant exactly when that kind was strongest then and either a later event changes the strongest kind or the container, not in maintenance, is in error and the instant past, or is stale or offline and the instant also before 45 seconds after its last report; no region is empty |
| RegionMerge.MergeRegions | apps/web/lib/history-status-overlays.ts:638-672 | the in-place coalescing loop computes the merged list |
| RegionMerge.MergeKeeps | apps/web/lib/history-status-overlays.ts:638-672 | every input lies in an output of its key, outputs start and end at inputs, add only gaps of at most 1000 ms, and outputs of one key are more than 1000 ms apart |
| RegionMerge.MergeIdempotent | apps/web/lib/history-status-overlays.ts:638-672 | merging again changes nothing up to order |
| RegionMerge.MergedInOrder | apps/web/lib/history-status-overlays.ts:638-672 | merged regions come by start, and those that start together by key |
| BackupEpisodes.SignalState.Process | apps/web/lib/unified-incidents.ts:275-375 | one run changes the record, and closes an episode, as the step function says |
| BackupEpisodes.DeriveRunEpisodes | apps/web/lib/unified-incidents.ts:259-378 | the loop over sorted runs returns the episodes and final state of the fold |
| BackupEpisodes.AlwaysSound | apps/web/lib/unified-incidents.ts:221-375 | in every reachable state an episode is open iff a signal is; an open one is critical iff checksum is active or two runs failed in a row; without one no failure is being counted |
| BackupEpisodes.SignalsMeaning | apps/web/lib/unified-incidents.ts:275-330 | the run-failure signal is on iff the last run failed; the checksum signal iff a checksum failure was never followed by a verified success |
| BackupEpisodes.FailuresMeaning | apps/web/lib/unified-incidents.ts:275-330 | the counter is the length of the final streak of failures, plus the seed's if all failed |
| BackupEpisodes.RecoveredNeverOverlap | apps/web/lib/unified-incidents.ts:259-378 | whatever order the runs come in, recovered episodes of a target never overlap |
| BackupEpisodes.EpisodeStart | apps/web/lib/unified-incidents.ts:275-330 | an open episode started with the run that broke what was whole, or at the earlier start known from before if nothing has been whole since |
| BackupEpisodes.RecoveredExactly | apps/web/lib/unified-incidents.ts:330-375 | a run recovers an episode if and only if it leaves no signal on and something was broken before it or it reports a checksum failure itself, in order and in range; with that episode's start, severity and duration |
| BackupCounts.EpisodeCounts | apps/web/lib/unified-incidents.ts:330-340 | an open episode counts the runs since it began that failed, reported a checksum failure, succeeded first after a failure or verified what was open, and what the context counted if it began before |
| BackupCounts.RecoveredCounts | apps/web/lib/unified-incidents.ts:340-375 | so does a recovered one, up to the run that recovers it; an episode one run opens and closes counts that run |
| Lifecycle.Executor.WaitStopped | deploy/oci/ivrm-mc-main-lifecycle.py:53-60 | it only inspects; true means the last observation, and no earlier one, was a stopped state; false that none was for 60 seconds; it ends within 61 seconds plus one call, and its result, calls and seconds are those docker's answers determine |
| Lifecycle.Executor.WaitHealthy | deploy/oci/ivrm-mc-main-lifecycle.py:63-72 | it only inspects; true means the last observation, and no earlier one, was running and healthy; false that none was for 120 seconds or the container ended; it ends within 122 seconds plus one call |
| Lifecycle.Executor.GracefulStop | deploy/oci/ivrm-mc-main-lifecycle.py:75-84 | each outcome means one kind of trace: already stopped, a refused TERM, a TERM followed by looks that end stopped, or by looks that never do; it never starts the container and sends nothing but one TERM |
| Lifecycle.Executor.SafeStart | deploy/oci/ivrm-mc-main-lifecycle.py:87-98 | each outcome means one kind of trace: already healthy, running but not healthy, a refused start, a start followed by looks that end healthy, or that never do; it never signals and starts only a container seen not running |
| Lifecycle.Executor.Execute | deploy/oci/ivrm-mc-main-lifecycle.py:101-114 | every report means the trace of its action; a success carries the expected phase and ends with its observation, a failure one of five codes; a restart starts only after a stopped state was seen; TERM is the only signal; its result, calls and seconds are those docker's answers determine; and it takes less than 182 seconds plus six calls for a restart, 122 plus three for a start, 61 plus three for a stop |
| LifecycleTime.EndsBefore | deploy/oci/ivrm-mc-main-lifecycle.py:53-114 | for every action, limit and bound d on docker calls, all runs end before the limit if and only if a condition on d and the limit holds; for a restart and d of 2/59 seconds or more the condition is that 182 + 6d is within the limit |
| LifecycleTime.EndsBeforeWorkerTimeout | apps/agent/cmd/ivrm-operation-worker/main.go:30 | every run of every action ends before the default result timeout of 225 seconds if and only if docker calls take at most 43/6 seconds |
| LifecycleTime.OutlastsWorker | apps/agent/cmd/ivrm-operation-worker/main.go:31 | some restart takes more than 240 seconds, the largest result timeout the worker accepts, if and only if docker calls may take more than 29/3 seconds |
| LifecycleLooks.StopWaitLooks | deploy/oci/ivrm-mc-main-lifecycle.py:53-60 | every look of the stop wait begins before 60 seconds; the first that raises or sees a stopped state ends it, and without one it gives up at 60 seconds or after |
| LifecycleLooks.HealthWaitLooks | deploy/oci/ivrm-mc-main-lifecycle.py:63-72 | the same of the health wait and 120 seconds, which a healthy, ended or raising look ends |
| JobProtocol.AtMostOnce | apps/agent/cmd/ivrm-operation-worker/main.go:480-503 | in every run a job's request is published at most once, and its action begins at most once more than the executor crashes between beginning it and unlinking the request; without such a crash at most once |
| JobProtocol.BoundIsReached | deploy/oci/ivrm-mc-main-lifecycle.py:166-179 | for every number of crashes some run with one publication executes once more than that |
| JobOutcomes.GrowsAlways | supabase/migrations/202609010002_mc_main_transition_bridge.sql:39-60 | in every run no later step changes a job's action or undoes a publication or performance |
| JobOutcomes.PerformedMeansAsked | deploy/oci/ivrm-mc-main-lifecycle.py:166-179 | whatever the executor has performed was a published request for that job and action, and its trace and report are what the action allows |
| JobOutcomes.SucceededMeansDone | apps/agent/cmd/ivrm-operation-worker/main.go:285-298 | in every run a job recorded as succeeded was performed by the executor, same job and action, after its one publication, ending with a stopped (stop) or running and healthy (start, restart) observation |
| JobOutcomes.FailedMeansReported | apps/agent/cmd/ivrm-operation-worker/main.go:258-298 | in every run a failed job carries a timeout, missing recovery state or internal error, or the code of a performance of it whose trace is what the code says: after `graceful_stop_timeout` TERM was sent, no stopped state was ever seen and nothing was started, after `preexisting_unhealthy` nothing was started and, for a start, no command was issued, and so on; no other code occurs |
| JobOutcomes.SuccessReachable | apps/agent/cmd/ivrm-operation-worker/main.go:232-299 | for every action some run ends with the job succeeded, one execution, everyone idle and no request left |
| JobReasons.EndedForAReason | apps/agent/cmd/ivrm-operation-worker/main.go:232-299 | in every run a job recorded as succeeded or failed was so because of one step of the worker: reading a result file of that job, then with its outcome and code; resuming with neither request nor result, then as recovery_state_missing; or a file left over, unwritable or unreadable, or a wait timed out, then as executor_timeout |
| JobReasons.WorkerMails | apps/agent/cmd/ivrm-operation-worker/main.go:256-299 | in every run each step of the worker asks the store for the outcome it has a reason for, and for no other |
| JobReasons.ResultPassedOn | apps/agent/cmd/ivrm-operation-worker/main.go:275-298 | in every run a result file the worker reads is its own job's, and the worker asks for success if it says so, and otherwise for failure with the very code in the file |
| JobFlow.WorkerNeverStuck | apps/agent/cmd/ivrm-operation-worker/main.go:232-299 | in every reachable state a worker that holds a job can go on |
| JobFlow.RootNeverStuck | deploy/oci/ivrm-mc-main-lifecycle.py:166-193 | in every reachable state an executor with a request or work in hand can go on |
| JobFlow.StatusChanges | supabase/migrations/202608040005_operation_lease_recovery.sql:217-230 | one step changes the status of a job exactly along the edges of the diagram: freely by claim, cancellation, lapse or requeue, and otherwise as a request in the mail asks from the status it expects |
| JobRequests.NeverBegunAgain | apps/agent/cmd/ivrm-operation-worker/main.go:310-312 | in every run, from the moment a job's published request is gone its action is never begun again |
| JobOutcomes.TerminalForever | supabase/migrations/202608040005_operation_lease_recovery.sql:217-230 | in every run a terminal record is final, whatever arrives late |
| Regression.BestLine | apps/web/lib/capacity.ts:235-243 | the fitted line minimises the weighted squared residual over all lines and is the only one that does |
| Regression.ResidualIsUnexplained | apps/web/lib/capacity.ts:236-243 | residual = totalVarianceY - slope² varianceX |
| Regression.RSquaredUnclamped | apps/web/lib/capacity.ts:244-247 | R squared equals the unclamped ratio, the explained share, lies in [0, 1], is 1 iff the residual is 0 and 0 iff the slope is |
| Regression.ExactLine | apps/web/lib/capacity.ts:235-247 | points on a line give back that line and R squared 1 |
| Regression.ReportedFit | apps/web/lib/capacity.ts:210-257 | a reported slope is that of a line at least as good as any, R squared is that of these points and in [0, 1], the span is positive, and the points are at least two, all of them if all have weight |
| Regression.ReportedSpan | apps/web/lib/capacity.ts:212-221 | the span runs from the earliest to the latest sample, and points are days since the earliest |
| Regression.NoFit | apps/web/lib/capacity.ts:211-231 | no fit is reported if and only if there are fewer than two samples or weighted points, no spread in time, or a time variance within epsilon |
| Regression.ShiftInvariant | apps/web/lib/capacity.ts:212-221 | moving every timestamp by the same amount changes nothing in the fit |
| Regression.OrderInvariant | apps/web/lib/capacity.ts:212-257 | samples in any order give the same fit |
| Forecast.LatestPercent | apps/web/lib/capacity.ts:202-208 | the backward loop finds the last present value, if there is one |
| Forecast.DaysMeaning | apps/web/lib/capacity.ts:282-288 | reported days are those after which the line from the current value meets the threshold, and they are within a horizon exactly when the line is at or above it by then |
| Forecast.PercentForecast | apps/web/lib/capacity.ts:290-473 | the method returns the report of the history, which the rows of `ForecastMeaning` explain figure by figure |
| ForecastMeaning.CoverageIsShare | apps/web/lib/capacity.ts:298-311 | coverage is the share of the range's buckets, at least one, that are there with a value of 0 to 200, and one exactly when all are; both counts are reported |
| ForecastMeaning.SpanIsShare | apps/web/lib/capacity.ts:312-315 | the span is the share of the range, at least an hour, between the earliest and the latest such value, and zero without a fit |
| ForecastMeaning.BetterDataKeepConfidence | apps/web/lib/capacity.ts:259-280 | with usage and thresholds the same, data at least as good in every figure never lower the confidence |
| Forecast.WarningComesFirst | apps/web/lib/capacity.ts:442-443 | a reported critical day implies a reported warning day no later |
| Forecast.RisingUsageNeverLowersState | apps/web/lib/capacity.ts:337-456 | with the same history higher usage never gives a less severe state |
| OAuthStates.ParseIsQueue | apps/web/lib/discord-auth.ts:259-268 | any cookie whatsoever reads as at most four different well-formed states |
| OAuthCookies.ReadExactly | apps/web/lib/discord-auth.ts:259-268 | a cookie of at most 1200 characters is read as the last four of its different parts of 32 to 256 letters, digits, underscores and hyphens, in the order in which they first appear |
| OAuthCookies.SplitMeaning | apps/web/lib/discord-auth.ts:264-266 | splitting a cookie loses nothing: the parts have no dots and joined give it back |
| OAuthStates.PrintedQueueReadsBack | apps/web/lib/discord-auth.ts:259-281 | a printed queue reads back unchanged and is at most 1027 characters, never reaching the limit of 1200 |
| OAuthStates.AppendRefines | apps/web/lib/discord-auth.ts:270-281 | appending fails exactly for malformed states and otherwise moves the state to the back of the queue, forgetting the oldest beyond four |
| OAuthStates.ConsumeRefines | apps/web/lib/discord-auth.ts:295-306 | consuming removes exactly the returned state from the queue, drops the cookie exactly when nothing is left, and leaves it alone for a malformed state |
| OAuthStates.RunRefines | apps/web/lib/discord-auth.ts:259-306 | over any run from any cookie the cookie stands for the queue the same operations give |
| OAuthStates.RememberedAfterThree | apps/web/lib/discord-auth.ts:81-84 | a started state still matches unless it came back or more than three others were started since |
| OAuthStates.RememberedExactly | apps/web/lib/discord-auth.ts:81-84 | in any run, from its last start on a state matches if and only if it has not come back and at no point more than three other states were pending: started after it and not come back |
| OAuthStates.ForgottenOnReturn | apps/web/lib/discord-auth.ts:295-306 | a state that came back does not match again until it is started again |
| Base64Url.RoundTrip | apps/web/lib/discord-oauth-cookies.ts:75-84 | decoding undoes encoding (section 5 of RFC 4648) |
| OAuthAttempt.BuildPayload | apps/web/lib/discord-oauth-cookies.ts:68-73 | the buffer written field by field is version, big-endian issue time, nonce, big-endian length and path |
| OAuthAttempt.SafeReturnPath | apps/web/lib/discord-oauth-cookies.ts:40-45 | a safe path has 1 to 512 bytes |
| OAuthAttempt.Create | apps/web/lib/discord-oauth-cookies.ts:47-85 | the imperative creation computes the specified attempt or error |
| OAuthAttempt.AcceptsExactly | apps/web/lib/discord-oauth-cookies.ts:93-164 | a state is accepted if and only if it is a signed payload in 80 to 800 characters of the url alphabet, in time, with its own fingerprint |
| OAuthAttempt.CreatedVerifies | apps/web/lib/discord-oauth-cookies.ts:47-164 | a created attempt verifies with its own cookie and secret exactly from 30 seconds before to 600 after its issue second; its path is the sanitized one if that has at most 512 bytes and the root otherwise, and so is what verification gives back of it; its cookie name is found from its state |
| OAuthAttempt.PathComesBack | apps/web/lib/discord-oauth-cookies.ts:40-45 | with a sanitizer that leaves its own results alone verification gives back the very path of creation |
| OAuthAttempt.CookieShared | apps/web/lib/discord-oauth-cookies.ts:28-31 | two fingerprints share a cookie exactly when their second bytes agree modulo 32 |
| MaintenanceScopes.ScopeByField | apps/web/lib/reliability-maintenance-metrics.ts:41-67 | Table: one window in force excuses an incident if and only if it is no out-of-memory kill and the fields of the window's scope, for each of the four, are the incident's |
| BackupEpisodes.SignalsAfter | apps/web/lib/unified-incidents.ts:293-337 | Table: one more run turns the run-failure signal on or off as it failed or not, the checksum signal on by the code checksum_failed or a success with a failed check, off only by a verified success, and counts or resets the failures |
| BackupEpisodes.SeedMeaning | apps/web/lib/unified-incidents.ts:221-257 | Table: what is known from before opens an episode if and only if either start is known, at the earlier one, critical for a checksum failure or two failures, with its related runs counted |
| BackupEpisodes.SortedRunsMeaning | apps/web/lib/unified-incidents.ts:281-285 | Table: runs are taken by time of completion, and those of one instant by row |
| LifecycleLooks.StopMeaning | deploy/oci/ivrm-mc-main-lifecycle.py:37-84 | Table: by docker's answers: a stop is done if the first finds no container or one exited, dead or created; it raises if a call does; it fails as docker_term_failed if TERM is refused; and otherwise ends as the wait does |
| LifecycleLooks.StartMeaning | deploy/oci/ivrm-mc-main-lifecycle.py:37-98 | Table: by docker's answers: a start passes if the first finds the container running and healthy, fails as preexisting_unhealthy if running otherwise, as docker_start_failed if the start is refused; and otherwise ends as the wait does |
| LifecycleLooks.ActMeaning | deploy/oci/ivrm-mc-main-lifecycle.py:101-114 | Table: a restart is a stop and, only if that succeeds, a start from the next call on; each action reports its outcome |
| JobFlow.AnyResult | apps/agent/cmd/ivrm-operation-worker/main.go:275-298 | Table: whatever is in the result file: another job or action is executor_timeout, an unusable code executor_failed, another phase executor_result_invalid |
| JobFlow.WorkerFlow | apps/agent/cmd/ivrm-operation-worker/main.go:232-299 | Table: in every run the worker, unless it stops, goes on from where it is as the program says |
| JobFlow.RootFlow | deploy/oci/ivrm-mc-main-lifecycle.py:166-179 | Table: in every run the executor, unless it crashes, goes on from where it is as the program says |
| JobFlow.ClaimMeaning | supabase/migrations/202609010001_mc_main_lifecycle_bridge.sql:299-372 | Table: an idle worker's claim gets exactly queued, leased and running jobs, all but the running ones as leased; the answer may get lost, and the job is leased all the same |
| JobRequests.RequestTakenAway | apps/agent/cmd/ivrm-operation-worker/main.go:430-440 | Table: the request is gone once the wait times out, once the store has accepted the outcome, and once the executor is through with it or rejects it |
| Regression.FlatValues | apps/web/lib/capacity.ts:244-246 | Table: values that do not vary count as explained |
| Regression.PointsMeaning | apps/web/lib/capacity.ts:217-221 | Table: the points fitted are exactly the samples with weight, at days since the earliest sample of all |
| ForecastMeaning.FittedSamples | apps/web/lib/capacity.ts:298-309 | Table: the trend is fitted to exactly those values, weighted by their sample counts, at least one |
| ForecastMeaning.CurrentMeaning | apps/web/lib/capacity.ts:316 | Table: usage now is the given one, or the last value there is |
| ForecastMeaning.StateMeaning | apps/web/lib/capacity.ts:319-456 | Table: at or over a threshold the state is that; below, none without 24 values, 0.4 of the buckets, half the range and an R squared of 0.3; with them forecast critical or warning if the trend, of 0.05 percent a day or more, reaches the threshold in 7 or 30 days, else growth or healthy |
| ForecastMeaning.ConfidenceMeaning | apps/web/lib/capacity.ts:259-280 | Table: confidence is high from 0.75, 0.8 and 0.8 on, medium from 0.5, 0.65 and 0.65 on, low below, and none without good data unless usage is critical |
| ForecastMeaning.DaysReported | apps/web/lib/capacity.ts:282-288 | Table: the days reported are zero over a threshold, none for a trend below 0.05 percent a day or longer than a year, and else where the trend meets the threshold |
| OAuthCookies.AppendAccepts | apps/web/lib/discord-auth.ts:270-276 | Table: appending fails exactly for states that are not 32 to 256 letters, digits, underscores and hyphens |
| OAuthAttempt.CookieSlot | apps/web/lib/discord-oauth-cookies.ts:28-31 | Table: the cookie's name ends in the two hexadecimal digits of the fingerprint's first two bytes modulo 32 |
| OAuthAttempt.SlotExactly | apps/web/lib/discord-oauth-cookies.ts:87-92 | Table: a cookie is looked up exactly for states of 80 to 800 characters of the url alphabet |
| BurnRate.TargetMeaning | apps/web/lib/reliability-slo.ts:272-293 | Table: a service is measured against the target of its last policy, if that is enabled |
| SloBudgets.ObservedMeaning | apps/web/lib/reliability-slo.ts:200-283 | Table: for all inputs a budget shows the seconds counted and excluded and the unclamped free share, or none of them without adjustments or figures of the service, and is exact if and only if the card is and every open incident has a known start |
| SloBudgets.StateMeaning | apps/web/lib/reliability-slo.ts:265-360 | Table: for all inputs the budget is unavailable without policies or figures, unconfigured without an enabled target, exhausted once the counted seconds reach what the target leaves of the range, and below that within budget or of unknown coverage as the figures are exact |
| Base64Url.QuadIsNumber | apps/web/lib/discord-oauth-cookies.ts:75-77 | Table: four digits are the number three bytes are, most significant first (section 4 of RFC 4648) |
| Intervals.CoverMember | apps/web/lib/reliability-metrics.ts:33-50 | Step: the covered set of a list is the instants inside some interval of it |
| Intervals.CoverAppend | apps/web/lib/reliability-metrics.ts:33-50 | Step: concatenating lists unites what they cover |
| Intervals.SameCover | apps/web/lib/reliability-metrics.ts:33-50 | Step: order and duplicates do not change what is covered |
| Intervals.PointsSize | apps/web/lib/reliability-metrics.ts:33-50 | Step: an interval covers as many instants as it is long |
| Intervals.OrderedSorts | apps/web/lib/reliability-metrics.ts:33-37 | Step: the list the sweep walks is sorted by start |
| Intervals.OrderedKeeps | apps/web/lib/reliability-metrics.ts:33-37 | Step: sorting keeps the intervals, hence what they cover |
| Intervals.ClipAllCover | apps/web/lib/reliability-maintenance-metrics.ts:69-80 | Step: the clipped, filtered exclusions cover exactly the source interval's share of the exclusions |
| Downtime.ClipMeaning | apps/web/lib/reliability-metrics.ts:22-31 | Step: the clipped interval holds exactly the in-range instants between the two readable ends; none when there are none |
| Downtime.IncidentMeaning | apps/web/lib/reliability-maintenance-metrics.ts:99-114 | Step: the interval of an incident is the in-range instants it is down |
| Downtime.EntriesMeaning | apps/web/lib/reliability-maintenance-metrics.ts:19-67 | Step: the exclusions of an incident cover an in-range instant exactly when a window applying to it excuses that instant |
| Downtime.OneMore | apps/web/lib/reliability-maintenance-metrics.ts:116-160 | Step: one more incident adds its interval to the raw set and its interval less its exclusions to the counted set |
| MaintenanceScopes.WindowExcuses | apps/web/lib/reliability-maintenance-metrics.ts:41-67 | Step: one window excuses one incident exactly if its scope is one of those that name the incident |
| Downtime.PushIncident | apps/web/lib/reliability-maintenance-metrics.ts:130-162 | Step: the loop step keeps the two interval lists covering the raw and counted sets of the incidents so far |
| Downtime.UnknownStart | apps/web/lib/reliability-maintenance-metrics.ts:148-160 | Step: an active incident without an exact, present start changes neither set |
| Downtime.ScopedMember | apps/web/lib/reliability-maintenance-metrics.ts:183-203 | Step: a service sees exactly the incidents of its entity type, overall sees all |
| Downtime.OverallSet | apps/web/lib/reliability-maintenance-metrics.ts:177-205 | Step: the overall counted set is the union of the three services' counted sets |
| Downtime.OverallExact | apps/web/lib/reliability-maintenance-metrics.ts:177-205 | Step: all starts are known overall exactly when they are in each service |
| BurnRate.FindBuilt | apps/web/lib/reliability-burn-rate.ts:130-160 | Step: looking a service up in the built adjustments gives that service's own figures |
| BurnRate.WindowMeaning | apps/web/lib/reliability-burn-rate.ts:130-180 | Step: a burn window's rate is the lookback's counted seconds over the allowed ones |
| BurnRate.WindowCoverage | apps/web/lib/reliability-burn-rate.ts:166-180 | Step: a window's coverage is exact iff every open incident has a known start and backup data is there where the service needs it |
| BurnRate.MoreMaintenanceLookback | apps/web/lib/reliability-burn-rate.ts:139-165 | Step: more maintenance never raises a lookback |
| BurnRate.MaintenanceLowersRate | apps/web/lib/reliability-burn-rate.ts:130-180 | Step: more maintenance never raises a burn rate and never changes its coverage |
| BurnRate.OutageState | apps/web/lib/reliability-burn-rate.ts:78-100 | Step: the state of a full outage, for every target |
| BurnRate.BudgetShape | apps/web/lib/reliability-slo.ts:265-360 | Step: what a budget reports, in terms of the lookback and the allowed seconds |
| SloBudgets.KnownMeaning | apps/web/lib/reliability-slo.ts:200-283 | Step: the budget has the lookback's seconds exactly with adjustments and the service's figures |
| SloBudgets.FromObserved | apps/web/lib/reliability-slo.ts:285-360 | Step: the rest of a budget follows from what it shows of its source |
| SloBudgets.ReportFound | apps/web/lib/reliability-slo.ts:237 | Step: the figures are those of the first card of the service |
| ContainerEvents.OpenSinceStep | apps/web/lib/incidents.ts:141-178 | Step: which event a signal has been open since, after one more event |
| ContainerEvents.OpenStep | apps/web/lib/incidents.ts:258-294 | Step: a signal is open after one more event iff that event starts it, or it was open and the event neither stops it nor changes the expected state |
| SignalRules.SignalAfter | apps/web/lib/incidents.ts:141-178 | Step: by the event's own fields, one more event opens, keeps or closes a signal of the reference |
| ContainerIncidents.SignalsAlways | apps/web/lib/incidents.ts:510-587 | Step: after every prefix the second loop's open signals are the reference's, and an episode exists iff there is one |
| ContainerIncidents.EpisodeAlways | apps/web/lib/incidents.ts:128-139 | Step: an open episode began with an alarming event and is critical iff some alarming event since was |
| ContainerIncidents.OrderAlways | apps/web/lib/incidents.ts:502-591 | Step: recovered episodes follow one another and all end before the open one begins |
| ContainerIncidents.DurationsFit | apps/web/lib/incidents.ts:334-340 | Step: durations of disjoint episodes within a span add up to at most the span |
| ChartKinds.OpenAsStep | apps/web/lib/history-status-overlays.ts:351-360 | Step: one more event sets a signal's kind anew by starting it, and otherwise keeps or loses it with the signal |
| ChartKinds.OneKind | apps/web/lib/history-status-overlays.ts:274-287 | Step: an open signal has exactly one kind, and only open signals have one |
| ChartBands.StrongestMeaning | apps/web/lib/history-status-overlays.ts:280-287 | Step: the strongest kind in the loop's map is the strongest among the open signals of the events |
| ChartBands.BandsStep | apps/web/lib/history-status-overlays.ts:364-397 | Step: one readable event changes the shown kind only from its own instant on |
| ChartBands.EmittedNotOpen | apps/web/lib/history-status-overlays.ts:364-397 | Step: no instant is both in an emitted and in the open band of a kind |
| ChartBands.ShowsOneMore | apps/web/lib/history-status-overlays.ts:79-120 | Step: clipping one more band to the range shows exactly its in-range instants |
| ChartBands.RegionsMeaning | apps/web/lib/history-status-overlays.ts:398-437 | Step: what the loop's bands and the open band show together |
| ChartBands.OpenBandEndMeaning | apps/web/lib/history-status-overlays.ts:391-414 | Step: the end drawn of an open band is past exactly the instants the present state reaches to |
| RegionMerge.CoalesceFaithful | apps/web/lib/history-status-overlays.ts:649-667 | Step: the same of the loop alone, over a sorted list |
| RegionMerge.CoalesceApart | apps/web/lib/history-status-overlays.ts:649-667 | Step: regions already apart are left untouched |
| RegionMerge.ApartPermutes | apps/web/lib/history-status-overlays.ts:668-672 | Step: sorting by start keeps regions of one key apart |
| BackupEpisodes.SeedSound | apps/web/lib/unified-incidents.ts:221-257 | Step: every seeded state meets the invariant |
| BackupEpisodes.StepSound | apps/web/lib/unified-incidents.ts:275-375 | Step: every run keeps it |
| BackupEpisodes.DerivedDisjoint | apps/web/lib/unified-incidents.ts:345-375 | Step: recovered episodes are ordered, disjoint, in range, and all before the open one |
| BackupCounts.CountAfter | apps/web/lib/unified-incidents.ts:330-345 | Step: one more run adds one to the count exactly if it is a related one |
| BackupCounts.TransitionedMeaning | apps/web/lib/unified-incidents.ts:305-337 | Step: the run that counts is told from the runs alone |
| Lifecycle.Executor.RunCommand | deploy/oci/ivrm-mc-main-lifecycle.py:27-34 | Step: a docker command is issued once, and raises or returns the status docker gives it, after docker's seconds |
| Lifecycle.Executor.InspectState | deploy/oci/ivrm-mc-main-lifecycle.py:37-50 | Step: an inspection returns docker's answer, not_found for a failed call and unknown for an unreadable one, and records it |
| LifecycleReports.FailureExplained | deploy/oci/ivrm-mc-main-lifecycle.py:75-114 | Step: every failure the executor can report has a trace that is what its code says |
| LifecycleTime.FitsSuffices | deploy/oci/ivrm-mc-main-lifecycle.py:53-114 | Step: a run with calls of at most d seconds takes less than 182 + 6d for a restart, 122 + 3d for a start, 61 + 3d for a stop, and less than every limit that meets the condition |
| LifecycleTime.SlowRun | deploy/oci/ivrm-mc-main-lifecycle.py:53-114 | Step: for every limit that does not, docker's answers for a run with calls of at most d seconds that takes at least that long |
| LifecycleTime.SlowStopWait | deploy/oci/ivrm-mc-main-lifecycle.py:53-60 | Step: 59 short looks and a last one of d seconds, begun before the deadline, never see a stopped state |
| Lifecycle.RestartTrace | deploy/oci/ivrm-mc-main-lifecycle.py:108-113 | Step: a stop that ended stopped followed by a start is a restart whose starts come after a stopped observation |
| Lifecycle.RestartReports | deploy/oci/ivrm-mc-main-lifecycle.py:108-113 | Step: a successful stop followed by a start is a restart, with the start's outcome |
| JobProtocol.PublishBySwap | supabase/migrations/202608040005_operation_lease_recovery.sql:217-226 | Step: compare-and-set lets a job become running at most once |
| JobProtocol.PublishByDelivery | apps/agent/cmd/ivrm-operation-worker/main.go:246-258 | Step: the worker may publish only on an accepted leased-to-running transition it was told of |
| JobProtocol.PublishByWorker | apps/agent/cmd/ivrm-operation-worker/main.go:410-450 | Step: publishing uses that permission up |
| JobProtocol.PermittedByWorker | apps/agent/cmd/ivrm-operation-worker/main.go:246-258 | Step: no worker step creates a permission, and publishing needs one |
| JobProtocol.ExecuteByRoot | deploy/oci/ivrm-mc-main-lifecycle.py:166-179 | Step: beginning an action uses up a published request; only a crash gives it back |
| JobProtocol.CountsByStep | apps/agent/cmd/ivrm-operation-worker/main.go:232-299 | Step: every step of every party keeps the counts of publications and executions bounded |
| JobProtocol.CountsAlways | apps/agent/cmd/ivrm-operation-worker/main.go:232-299 | Step: so they are in every run |
| JobProtocol.FirstExecution | deploy/oci/ivrm-mc-main-lifecycle.py:166-179 | Step: a run that takes a job from the queue to its execution |
| JobProtocol.CrashAndRepeat | deploy/oci/ivrm-mc-main-lifecycle.py:166-179 | Step: a crash while acting leads to one more execution of the same request |
| JobOutcomes.ActionsByRoot | deploy/oci/ivrm-mc-main-lifecycle.py:126-142 | Step: what the executor takes, performs and writes carries the job's own action |
| JobOutcomes.ActionsByWorker | apps/agent/cmd/ivrm-operation-worker/main.go:410-425 | Step: the request the worker publishes carries the job's own action |
| JobOutcomes.ReportsByStep | deploy/oci/ivrm-mc-main-lifecycle.py:145-179 | Step: every result file reports a performance of its job or an internal error |
| JobOutcomes.JudgeTruthful | apps/agent/cmd/ivrm-operation-worker/main.go:275-298 | Step: on such a report the worker asks for success only if it was one, and never falls back to its codes for unusable results |
| JobOutcomes.DecideTruthful | apps/agent/cmd/ivrm-operation-worker/main.go:258-298 | Step: every outcome the worker asks for is backed by a performance or one of its own three codes |
| JobOutcomes.OutcomesByNetwork | supabase/migrations/202609010002_mc_main_transition_bridge.sql:39-96 | Step: the store records only outcomes so backed |
| JobOutcomes.HistoryAlways | apps/agent/cmd/ivrm-operation-worker/main.go:232-299 | Step: all this holds in every run |
| JobOutcomes.TerminalStays | supabase/migrations/202608040005_operation_lease_recovery.sql:217-230 | Step: no step changes the record of a terminal job |
| JobReasons.DecideReasons | apps/agent/cmd/ivrm-operation-worker/main.go:256-299 | Step: what the worker asks for is what it has a reason for |
| JobReasons.RecordedBy | supabase/migrations/202609010002_mc_main_transition_bridge.sql:39-96 | Step: a job only gets the outcome and code a request in the mail asks for |
| JobReasons.AlwaysExplained | apps/agent/cmd/ivrm-operation-worker/main.go:232-299 | Step: in every run all requests and all records have their step |
| JobRequests.GoneByStep | apps/agent/cmd/ivrm-operation-worker/main.go:310-312 | Step: no step brings a request back once it is gone |
| JobFlow.AnswerHeard | apps/agent/cmd/ivrm-operation-worker/main.go:337-376 | Step: the worker hears whether its request was accepted, if the answer arrives |
| JobFlow.MailMayBeLost | apps/agent/cmd/ivrm-operation-worker/main.go:388-398 | Step: any request may get lost with nothing else changed |
| JobFlow.ResultMayGo | deploy/oci/ivrm-mc-main-lifecycle.py:156-163 | Step: while the executor rests an old result may be cleaned up |
| Regression.Excess | apps/web/lib/capacity.ts:225-243 | Step: a line's residual exceeds the unexplained variance by a square in its slope and one in its height at the mean |
| Regression.WeightPositive | apps/web/lib/capacity.ts:223-226 | Step: kept points have positive total weight, so the branch rejecting a total of zero never acts |
| ForecastMeaning.AcceptedCount | apps/web/lib/capacity.ts:298-309 | Step: as many samples are fitted as there are values of 0 to 200 |
| ForecastMeaning.GoodDataUsable | apps/web/lib/capacity.ts:360-425 | Step: data are usable exactly if the report's own figures are good enough |
| OAuthStates.SplitJoin | apps/web/lib/discord-auth.ts:264-267 | Step: splitting undoes joining dot-free parts |
| OAuthCookies.ReadInOrder | apps/web/lib/discord-auth.ts:264-267 | Step: behind a part in the list of different parts stand those that first appear after it |
| OAuthStates.MatchesMembers | apps/web/lib/discord-auth.ts:283-293 | Step: a returned state matches iff it is in the queue |
| OAuthStates.PendingMeaning | apps/web/lib/discord-auth.ts:270-306 | Step: a state is pending iff it was started by the operations and has not come back since |
| OAuthStates.BehindByRun | apps/web/lib/discord-auth.ts:270-306 | Step: behind a state in the queue stand exactly the others pending, unless they were ever more than three and it was pushed out |
| Base64Url.Encode | apps/web/lib/discord-oauth-cookies.ts:75-84 | Step: the text uses only the url alphabet and has ceil(4n / 3) characters |
| Base64Url.Alphabet | apps/web/lib/discord-oauth-cookies.ts:75-77 | Step: the digits are the capital letters, the small ones, the decimal digits, hyphen and underscore (section 5 of RFC 4648) |
| Base64Url.Injective | apps/web/lib/discord-oauth-cookies.ts:146-154 | Step: equal encodings mean equal bytes, so comparing encoded fingerprints compares fingerprints |
| OAuthAttempt.ReadBack | apps/web/lib/discord-oauth-cookies.ts:68-73 | Step: a written payload is the byte 1, the issue time in four bytes and the length in two, most significant first, around 24 bytes of nonce, and the path from byte 31 on; every field reads back |
| OAuthAttempt.WriteBack | apps/web/lib/discord-oauth-cookies.ts:128-144 | Step: a payload with the right version and length is one that could have been written |
| OAuthAttempt.TokenLength | apps/web/lib/discord-oauth-cookies.ts:8-14 | Step: every token has 86 to 767 characters, inside the accepted 80 to 800 |
| OAuthAttempt.CarriedIsAccepted | apps/web/lib/discord-oauth-cookies.ts:93-164 | Step: a correctly signed state is accepted exactly in time and with its own fingerprint, giving its safe path |
| OAuthAttempt.CreationSucceeds | apps/web/lib/discord-oauth-cookies.ts:52-64 | Step: creation succeeds exactly with a secret and an issue second of 32 bits |

## Left out

- Fetching and parsing: Supabase, Discord and Cloudflare requests, environment and response parsers, request signing and nonces.
- Grouping events and runs by entity and merging duplicate events: each loop is modelled over one entity's sorted list, as the source calls it.
- Entity keys, labels, reasons, links, ids of incidents and regions, and every other text shown to people.
- Regions and incidents derived from present state rather than history: host gaps, freshness regions, fallback regions of containers without a band, active incidents.
- Medians, percentiles, counts and the sorting of finished reports.
- Unreadable timestamps among chart events: the loop skips them, but a sort that meets one promises no order, so results about instants ask for readable times in order.
- Unreadable timestamps in the sort before the trend fit: callers filter them out, and the sort with them is unspecified.
- Floating-point rounding and non-finite numbers in rates and in the fit.
- The backup growth forecast: it reads the same fit through fewer thresholds.
- Lease owners and lease times of jobs, audit logs and the one-running-job rule of the store: they only refuse more.
- The age, permission and size checks on request files: the model lets the executor reject a request at any time.
- Time in the job protocol: a timeout may happen at any moment while the worker waits, which covers every result timeout.
- More than one worker or executor at a time: the services run one of each.
- Text in the sanitizer that is not ASCII: its output is a serialised URL, so its UTF-8 bytes are the text.
- Lifecycle.Executor.Execute: does not model the time Python itself takes, because only docker calls and sleeps are bounded by the source.
- BackupEpisodes.SignalState.Process: does not restate the meaning of the event count, because nothing downstream computes with it.
- Role maps and role resolution, provider errors and random state generation in the login code.
