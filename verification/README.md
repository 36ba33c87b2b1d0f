# NIMon, verified

NIMon is a hub, its edges and their clients, which watch test instruments. This project models the
protocols and algorithms of NIMon whose correctness does not show from reading one function, and
proves their properties over every input, every run or every interleaving.

`dafny verify dfyconfig.toml` checks the whole project.

## What is modelled

| files | component |
|---|---|
| `DbWriter`, `DbLedger`, `DbWriterTask` | the hub's ordered database writer: two lanes, a biased select, shedding, flush barriers, contained failures, the final drain |
| `ActionRuntime`, `ActionRuns`, `ActionLaws`, `ActionTasks` | remediation actions on an edge: device locks, slots, deadlines, driver calls that outlive their caller, cancellation; capped output capture |
| `Rules`, `RuleLeaves`, `AlertLatch` | the three-valued semantics of alert conditions, and what hysteresis buys |
| `AlertManager`, `AlertLaws`, `AlertRuns`, `AlertCaps`, `AlertHolds`, `AlertReopening`, `OfflineAlerts`, `AlertFlapping`, `AlertEvents`, `AlertKnowledge`, `AlertAnswers`, `AlertActor` | the alert manager: the life of alerts under reports, predictions, operators and sweeps; its laws over whole runs; firing caps; manual resolutions; alerts under the id of the offline alert; hysteresis in runs; what ends and acknowledges an alert; what is known of devices, predictions and edges; how reports and sweeps are answered; the actor |
| `EdgeSocket` | what the hub's socket lets through to the alert manager: payloads of registered edges about devices that they own |
| `ConditionConfig`, `ConditionDocs`, `RuleConversion`, `RuleSlug`, `BuildRules`, `RuleTexts` | rules from the configuration file: both shapes of a condition, conversion, slugs, unique ids |
| `Poller`, `PollerTurns`, `PollerObject` | the dashboard's poller: fetch, timer, abort, coalescing |
| `Reconcile` | the widget's keyed list reconciliation, on a heap of nodes |
| `GeoPump`, `GeoPumpObject` | the widget's coalescing geometry pump |
| `LibCache`, `LibReturns`, `LibCacheObject` | the process-wide library cache: double-checked locking with timed failure caching |
| `Envelope` | the chart's downsampling |
| `PathEncoding`, `CsvExport` | request paths and CSV output of the command line client |
| `DeviceIdentity` | keys and ids of discovered devices |
| `Simulator`, `SimReadings`, `SimulatorEdge` | the simulated edge: device lifecycle, alerts, predictions, counts |
| `Basics` | optional values, results, decimal text, trimming |

Components that change state step by step come in two halves. The first is a `Step` function on
values, in which any sequence of events is a run and an event that is not possible changes nothing;
the theorems about all runs are proved there, by an invariant with one small lemma per kind of step.
The second is a class with the source's own fields, updated in place; every method carries out one
event, and its postcondition equates the new state with `Step` of the old one. A ghost trace makes
every object the state of some run, so the theorems apply to it.

What the steps do is said a second time, from the events of the run, the fields of a request or the
words of a document, without the functions that carry it out: in `DbLedger`, `ActionLaws`,
`PollerTurns`, `LibReturns`, `RuleLeaves`, `AlertEvents`, `AlertKnowledge`, `AlertAnswers`,
`ConditionDocs`, `RuleTexts` and `SimReadings`.

## Where the code and its promises part

Each of these is proved, with the exact condition under which the promise does hold.

- A low write may overtake an earlier priority write when both are submitted between the two polls
  of one pick (`DbWriter.OvertakesOnlyInTheGap`). The documented order holds if picks are atomic.
- The writer's timeout counter is documented as "since the last successful one" but a panic resets it
  as well (`DbWriter.CounterVersusDocumentation`).
- Actions are documented as bounded by the action timeout; waiting for a slot comes on top for
  services and scripts, and the grace for scripts (`ActionRuns.LateIff`, `ActionRuns.TwiceTheTimeout`).
- Two actions can be live on one device, documented as one at a time, exactly if one of them is locked
  under the bare name, its device not being managed when it started, and the other under the full id
  (`ActionRuns.TwoActionsIff`). Resets are not affected (`ActionRuns.ResetsExclude`).
- A power-cycle delay too large for 64 bits counts as no delay, not as the longest one
  (`ActionRuntime.DelayAsWritten`).
- Hysteresis bounds re-firing by the movement of the metric exactly as long as no report of the metric
  as a boolean ends an alert (`AlertLatch.BoundedIff`, `AlertLatch.BooleansRefireForFree`).
- A manually resolved alert is promised not to re-open inside its cooldown. It can, exactly if it is
  not held: if the manager was made to forget the resolution, or never held the alert because it has
  the id of the offline alert (`AlertReopening.ReportReopensIff`, `AlertReopening.RuleReopensIff`).
  - There are three ways to forget a resolution (`AlertHolds.LiftedIff`): the device is removed; a sweep
    gives up the device, which has not reported for longer than the retention, whatever the cooldown;
    or the resolution itself is older than the retention. The removal is one by an edge that owns the
    device, unless the hub knows it as another edge's: by the edge of the alert, or by one of the two
    of which one begins the other, as `a` and `a:b` both own `a:b:c`
    (`AlertReopening.RemovalLiftsBetweenIff`).
  - The offline alert itself re-opens, whatever its cooldown, exactly if its edge has been seen since
    the resolution and is silent again (`OfflineAlerts.OfflineReopensIff`).
  - A rule whose name leads to the same id opens its alert again whenever it fires and its cap has room
    (`AlertReopening.OfflineIdIsNeverHeld`, `OfflineAlerts.OfflineRuleReopens`).
- The socket promises that no edge touches the devices of another. Two edges share devices exactly if
  the name of one, with a colon behind it, begins that of the other (`EdgeSocket.SharedIff`).
- The cap of a rule can be exceeded, by any number, exactly if its name makes it share an id with
  predictions or, with offline detection on, with the offline alert (`AlertCaps.SlugCapHoldsIff`).
- Integers of a condition are cut to 32 bits without an error (`ConditionConfig.RoundTripIff`).
- A poller refreshed before it is started can have two live fetches (`Poller.StepGoodIff`), and a
  refresh coalesced into an aborted fetch starts none (`Poller.CoalescedRefreshIff`).
- Reconciliation leaves children behind whose key an other child repeats (`Reconcile.Reconcile`).
- A retry of a failed geometry request while a newer one is in flight replaces the newer one
  (`GeoPump.WishStep`, `GeoPump.WishLost`).
- The envelope keeps at most n points for even n only (`Envelope.LengthIff`, `Envelope.BoundsAllIff`).
- A path with a segment `.` or `..` does not survive the resolving of the URL, and every other does
  (`PathEncoding.ReachesItsTargetIff`).
- Device ids are ambiguous between two edges exactly if the name of one, with a colon behind it, begins
  that of the other (`DeviceIdentity.EdgesCollideIff`).

## Model

| member | source | states |
|---|---|---|
| `DbWriter.EveryRun` | crates/nimon-hub/src/db_writer.rs:118-213 | in every run each lane holds, in submission order, finished ++ running ++ queued writes; the low lane (reserved flush slots included) stays within its capacity; `shed`, `panics` and `consecutive_timeouts` count exactly the refusals for want of room, the panics, and the trailing timeouts |
| `DbWriter.StepKeepsInv` | crates/nimon-hub/src/db_writer.rs:125-151 | the invariant behind that survives every step of submitters, flushes and worker |
| `DbWriter.StoppedMeansDrained` | crates/nimon-hub/src/db_writer.rs:133-139 | a worker that stops on its own has lost every handle and finished everything ever accepted in either lane |
| `DbWriter.OvertakesOnlyInTheGap` | crates/nimon-hub/src/db_writer.rs:129-148 | a low write overtakes an earlier priority write exactly when both slipped in between the two polls of one pick |
| `DbWriter.OvertakingHappens` | crates/nimon-hub/src/db_writer.rs:129-148 | a four-step run in which that happens |
| `DbWriter.AtomicPicksAreGapFree` | crates/nimon-hub/src/db_writer.rs:129-148 | when a pick is one atomic step, no submission falls between its polls |
| `DbWriter.NoOvertaking` | crates/nimon-hub/src/db_writer.rs:20-23 | the documented order, for all runs without priority submissions in the gap: a low write starts only after every priority write submitted before it has finished |
| `DbWriter.BarrierCoversBothLanes` | crates/nimon-hub/src/db_writer.rs:231-244 | when a low operation or flush barrier starts, all low operations accepted before it have finished, and all earlier priority writes unless it slipped into the gap |
| `DbWriter.CounterVersusDocumentation` | crates/nimon-hub/src/db_writer.rs:247-273 | the timeout counter equals "timeouts since the last success" exactly when no panic followed an open timeout (line 70 documents success only, line 257 resets on a panic too) |
| `DbWriter.WorkerWindsDown` | crates/nimon-hub/src/db_writer.rs:128-150 | with every handle gone each worker step lowers a measure and loses nothing accepted |
| `DbLedger.AccountOfRun` | crates/nimon-hub/src/db_writer.rs:175-244 | in every run exactly the writes that were submitted while a handle was left and the worker had not stopped have been accepted, in order; low writes and barriers likewise while there was room; every `submit_low` was told what it found; outcomes, places and handles are those of the events |
| `DbLedger.NothingSentIsLost` | crates/nimon-hub/src/db_writer.rs:14-23 | so, unless the worker was killed, every priority write sent has finished, runs or is queued, in the order of submission, and every low write for which there was room |
| `DbLedger.KilledHasStopped` | crates/nimon-hub/src/db_writer.rs:93-100 | a worker that was killed stays stopped and has dropped what was queued |
| `DbLedger.OldestIsServed` | crates/nimon-hub/src/db_writer.rs:129-148 | in every run a worker at the select starts the oldest priority write, else the oldest low one; it stops only with both lanes empty and no handle left |
| `DbWriterTask.Writer.constructor` | crates/nimon-hub/src/db_writer.rs:118-158 | a new writer is the initial state, with capacity at least one |
| `DbWriterTask.Writer.Submit` | crates/nimon-hub/src/db_writer.rs:175-186 | enqueues on the priority lane unless the worker is gone |
| `DbWriterTask.Writer.SubmitLow` | crates/nimon-hub/src/db_writer.rs:188-213 | accepts, sheds and counts, or refuses as closed |
| `DbWriterTask.Writer.FlushReserve` | crates/nimon-hub/src/db_writer.rs:234-244 | a flush takes a place in the low lane only if there is room |
| `DbWriterTask.Writer.FlushSend` | crates/nimon-hub/src/db_writer.rs:234-244 | and uses it to enqueue its barrier |
| `DbWriterTask.Writer.PollHigh` | crates/nimon-hub/src/db_writer.rs:129-140 | the priority arm of the biased select |
| `DbWriterTask.Writer.PollLow` | crates/nimon-hub/src/db_writer.rs:141-147 | the low arm, reached only after the priority arm was pending |
| `DbWriterTask.Writer.DrainOne` | crates/nimon-hub/src/db_writer.rs:135-138 | one turn of the final drain |
| `DbWriterTask.Writer.FinishOp` | crates/nimon-hub/src/db_writer.rs:247-273 | the running operation ends in one of four ways, and the worker goes on |
| `DbWriterTask.Writer.Die` | crates/nimon-hub/src/db_writer.rs:93-100 | a worker torn down from outside leaves nothing queued and is not alive |
| `DbWriterTask.Writer.Health` | crates/nimon-hub/src/db_writer.rs:165-173 | the four health fields, in terms of the history |
| `DbWriterTask.Writer.WindDown` | crates/nimon-hub/src/db_writer.rs:128-150 | the worker loop terminates once every handle is dropped, with everything accepted finished in order |
| `ActionRuntime.EveryRun` | crates/nimon-edge/src/action.rs:86-106 | in every interleaving `busy` is exactly the keys of the live guards, one action per key, and free permits plus slot holders are the configured number |
| `ActionRuntime.StepKeepsInv` | crates/nimon-edge/src/action.rs:163-218 | the invariant behind that, the queue of the semaphore and the time budget survive every start, wake-up, grant, timeout, return, cancellation and tick |
| `ActionRuntime.NothingLeaks` | crates/nimon-edge/src/action.rs:182-217 | with nothing live all locks and permits are back; delays and slot waits hold no slot |
| `ActionRuntime.AdmittedIffFree` | crates/nimon-edge/src/action.rs:163-180 | a request is admitted exactly when it is valid and no live action holds its lock key |
| `ActionRuntime.BareAndFullShareALock` | crates/nimon-edge/src/action.rs:279-293 | bare and full id take one lock exactly when the full id is managed and the bare name is neither an id itself nor prefixed like one |
| `ActionRuntime.BareNameIsExcludedToo` | crates/nimon-edge/src/action.rs:170-180 | an action under the bare name is refused while one under the full id is live |
| `ActionRuntime.DetachedHoldsOn` | crates/nimon-edge/src/action.rs:379-413 | a driver call that outlived its caller keeps lock and slot through any events until it returns, and then gives both back |
| `ActionRuntime.AnswersInTime` | crates/nimon-edge/src/action.rs:163-218 | resets answer within the timeout of their start, delay included; slots are granted, and actions that do not get to run are answered, within it; services that run answer within the timeout of being granted their slot, scripts after the grace besides |
| `ActionRuns.ClockMovesOn` | crates/nimon-edge/src/action.rs:184-202 | time never gets stuck: from every reachable state wake-ups, slot grants, timeouts and ends of bodies alone lead within the same second to one in which the clock moves on; nobody need be cancelled |
| `ActionRuns.LateIff` | crates/nimon-edge/src/action.rs:14-18 | an admitted action is answered later than the action timeout after its start in some run if and only if it is no reset, and no slot is left for it at its start, or it is a script and scripts have a grace period |
| `ActionRuns.TwiceTheTimeout` | crates/nimon-edge/src/action.rs:189-217 | for every timeout and number of slots there is a run in which services take twice the timeout, and a script its grace on top: the bound of `AnswersInTime` is the least |
| `ActionRuns.TwoActionsIff` | crates/nimon-edge/src/action.rs:12-13 | while an action on a device is live, whatever the registry has gone through since its start, a valid request for that device is admitted exactly if one of the two is locked under the bare name and the other under the full id |
| `ActionRuns.ResetsExclude` | crates/nimon-edge/src/action.rs:279-293 | never two resets of one device, as long as the registry holds full ids only |
| `ActionRuns.TwoActionsHappen` | crates/nimon-edge/src/action.rs:170-180 | a service restart requested under the bare name of a device that is not managed yet does not exclude a second one once it is |
| `ActionRuntime.DelayAsWritten` | crates/nimon-edge/src/action.rs:429-434 | a delay written in decimal is read back, capped at 300; beyond 64 bits it counts as none |
| `ActionLaws.NumberIsDelay` | crates/nimon-edge/src/action.rs:429-434 | a delay may have space around it and a plus sign before it, and is capped at 300 seconds |
| `ActionLaws.OnlyNumbersDelay` | crates/nimon-edge/src/action.rs:429-434 | and what is no such number gives no delay |
| `ActionLaws.AdmittedIff` | crates/nimon-edge/src/action.rs:163-278 | in every run a request is admitted exactly if its lock is free and it is valid: for resets with DAQmx enabled, a managed real device with a driver name, and a delay of zero or below the timeout, which only a power cycle has |
| `ActionLaws.PlanIff` | crates/nimon-edge/src/action.rs:222-278 | what is carried out for a valid request, and that no other is |
| `ActionLaws.PowerCycleWaits` | crates/nimon-edge/src/action.rs:184-188 | whatever happens after its start, a power cycle is granted no slot before its delay has passed |
| `ActionLaws.WrittenDelayIsWaited` | crates/nimon-edge/src/action.rs:243-247 | with a delay of n seconds in decimal, none before n seconds, or 300 |
| `ActionLaws.OthersQueueAtOnce` | crates/nimon-edge/src/action.rs:184-202 | a driver reset, services, scripts and a power cycle without a delay are in the queue from their start; a power cycle with one is not |
| `ActionLaws.AnsweredIff` | crates/nimon-edge/src/action.rs:189-217 | each event answers a caller exactly if its action gives up (its time is up and as many wait before it as there are permits), its body or driver call ends, or its time with the driver is up; once, at that instant, and as run exactly if it held a slot |
| `ActionLaws.SlotTakenIff` | crates/nimon-edge/src/action.rs:189-204 | a slot is taken exactly by the first in the queue while a permit is free |
| `ActionLaws.ReleasedIff` | crates/nimon-edge/src/action.rs:86-106 | lock and slot are given back exactly by giving up, by the end of body or driver call, and by a cancellation outside the driver |
| `ActionLaws.DetachedIff` | crates/nimon-edge/src/action.rs:379-413 | a driver call goes on without its caller exactly if that is cancelled or out of time |
| `ActionTasks.EdgeActions.Start` | crates/nimon-edge/src/action.rs:163-188 | validation, lock and the beginning of the delay or the slot wait |
| `ActionTasks.EdgeActions.TakeSlot` | crates/nimon-edge/src/action.rs:193-217 | the slot is granted and the body begins |
| `ActionTasks.EdgeActions.GiveUp` | crates/nimon-edge/src/action.rs:196-201 | no slot in time: the lock goes back and the caller is told |
| `ActionTasks.EdgeActions.ReturnFromDriver` | crates/nimon-edge/src/action.rs:391-412 | the driver call ends and drops both guards, whether or not anybody still waits |
| `ActionTasks.EdgeActions.LeaveDriver` | crates/nimon-edge/src/action.rs:403-408 | the caller is answered while lock and slot stay with the call |
| `ActionTasks.EdgeActions.Abort` | crates/nimon-edge/src/action.rs:163-218 | cancellation at any await gives back exactly what the cancelled action holds |
| `OutputCapture.Captured.ReadInto` | crates/nimon-edge/src/action.rs:496-514 | however the stream is chunked, the first `cap` bytes are kept and truncation is noted exactly if there were more |
| `Rules.NeverBoth` | crates/nimon-core/src/alert/rules.rs:195-286 | no condition tree of any depth both fires and is cleared in one context |
| `Rules.RuleNeverBoth` | crates/nimon-core/src/alert/rules.rs:157-174 | nor does a rule, enabled or not |
| `Rules.KleeneSemantics` | crates/nimon-core/src/alert/rules.rs:204-285 | firing and clearing together are strong Kleene logic over the leaves, And as meet, Or as join |
| `Rules.LeafComplementary` | crates/nimon-core/src/alert/rules.rs:349-373 | on a known metric "cleared" is "not firing" exactly outside the margin band, and everywhere at margin zero |
| `Rules.InformationOnlyDecides` | crates/nimon-core/src/alert/rules.rs:184-285 | learning unknown metrics never takes back a firing or a cleared verdict, for any nesting |
| `Rules.ReportingAMissingMetric` | crates/nimon-core/src/alert/rules.rs:184-193 | in particular reporting one metric that was missing or not numeric |
| `Rules.RaisingMargins` | crates/nimon-core/src/alert/rules.rs:250-256 | raising margins anywhere leaves firing unchanged and only shrinks the cleared set |
| `Rules.PositiveOrZero` | crates/nimon-core/src/alert/rules.rs:356-360 | a margin that is not finite and positive counts as zero |
| `RuleLeaves.ThresholdMeans` | crates/nimon-core/src/alert/rules.rs:256-260 | on which side of its limit an enabled rule on a finite reading fires, for all six operators, and how far on the other side it is cleared |
| `RuleLeaves.BooleanMeans` | crates/nimon-core/src/alert/rules.rs:256-260 | a boolean is tested for equality only, as one or zero, and cleared whenever it does not fire |
| `RuleLeaves.UnreadableMeans` | crates/nimon-core/src/alert/rules.rs:184-193 | texts, missing metrics and numbers that are not finite neither fire nor clear |
| `RuleLeaves.HealthChangeMeans` | crates/nimon-core/src/alert/rules.rs:195-204 | a rule on a change of state fires exactly at a change to its state, from the other one if it names one, and is cleared in every other state |
| `RuleLeaves.PredictionMeans` | crates/nimon-core/src/alert/rules.rs:195-285 | a rule on predictions fires exactly while one of its type is likely and near enough |
| `RuleLeaves.OfflineMeans` | crates/nimon-core/src/alert/rules.rs:195-285 | a rule on silence fires exactly if the device says so or was last polled more whole minutes ago than allowed |
| `AlertLatch.FiringCostsVariation` | crates/nimon-hub/src/alert/manager.rs:829-853 | an ordering rule with margin h opens k times only at a total variation of at least 2h(k-1), less 2h per alert that a boolean sample ended |
| `AlertLatch.HoveringFiresOnce` | README.md:447-449 | a value that moves less than two margins in all opens its alert at most once |
| `AlertLatch.AlwaysPaid` | crates/nimon-core/src/alert/rules.rs:349-373 | the accounting behind the bound: after every sample the variation paid so far covers the openings so far |
| `AlertLatch.NonFiniteThreshold` | crates/nimon-core/src/alert/rules.rs:352-365 | with a NaN or infinite threshold only a boolean sample can end an alert, and some such rules never fire |
| `AlertLatch.BoundIsTight` | crates/nimon-core/src/alert/rules.rs:352-373 | neither bound nor debit can be improved: for every ordering operator, every k and every b below k there is a history with k openings, b of them ended by booleans, at a variation as close to 2h(k-1-b) as one likes |
| `AlertLatch.BooleansRefireForFree` | crates/nimon-core/src/alert/rules.rs:256-260 | for every rule with an ordering operator and a finite threshold, and every k, a history with k openings, k-1 booleans and no movement |
| `AlertLatch.BoundedIff` | README.md:447-449 | with a margin above zero the bound without a debit is guaranteed exactly if no boolean sample ends an alert |
| `AlertLaws.StepKeepsInv` | crates/nimon-hub/src/alert/manager.rs:746-1067 | the book-keeping and every law below survive each event of the manager: device reports, edge alerts, predictions, edge activity, removals, acknowledgements, manual resolutions, sweeps and the passage of time |
| `AlertLaws.FireRuleKeeps` | crates/nimon-hub/src/alert/manager.rs:746-811 | in particular a rule that fires opens, re-fires or holds back its alert lawfully |
| `AlertLaws.EndKeeps` | crates/nimon-hub/src/alert/manager.rs:684-700 | resolving any set of alerts keeps the laws |
| `AlertRuns.EveryAlert` | README.md:443-446 | of every alert in every run: fires at least a cooldown apart; exactly those before its acknowledgement notify and act; once only if its rule suppresses repeats; opened after an unbroken breach as long as its rule's window |
| `AlertRuns.OneAtATime` | README.md:443-444 | of two alerts of one rule, edge and device one is over before the other opens |
| `AlertRuns.EdgesKeepToThemselves` | crates/nimon-hub/src/alert/manager.rs:865-885 | what one edge reports never touches the alerts of another, not even for the same device id |
| `AlertRuns.ReportSettles` | crates/nimon-hub/src/alert/manager.rs:1870-1910 | after a device report no rule that is cleared has an alert, every rule that fires has one up to date unless its window, a hold or its cap stands against it, and a healthy device has no edge alerts |
| `AlertRuns.SweepSettles` | crates/nimon-hub/src/alert/manager.rs:909-1030 | after a sweep an edge has its offline alert exactly if it had it or is silent and not latched, and no edge or prediction alert is overdue |
| `AlertEvents.EndsIff` | crates/nimon-hub/src/alert/manager.rs:684-700 | in every run an open alert ends exactly by its resolution by hand; by a report after which its rule is cleared, or that says its device healthy if it is an edge alert; with its device; by its edge being seen if it is the offline alert; or by a sweep that finds its rule cleared by what is known, its edge seen, or it overdue |
| `AlertEvents.AcknowledgedIff` | crates/nimon-hub/src/alert/manager.rs:1754-1773 | in every run an alert is acknowledged exactly if an acknowledgement of its id came while it was open, after as many fires as it had at the first one |
| `AlertEvents.SilentAfterAcknowledgement` | crates/nimon-hub/src/alert/manager.rs:651-682 | so exactly the fires before the first acknowledgement notify and act |
| `AlertKnowledge.KnownIsReported` | crates/nimon-hub/src/alert/manager.rs:1860-1905 | in every run what is known of a device is what its last report said, and when, unless its edge has removed it or a sweep given it up since |
| `AlertKnowledge.PredictionsOfRun` | crates/nimon-hub/src/alert/manager.rs:1940-1975 | of every device the newest prediction of each type is kept, until a sweep finds it too old or its device is forgotten |
| `AlertKnowledge.EdgeMoves` | crates/nimon-hub/src/alert/manager.rs:886-905 | an edge is known by its latest sign of life; a sweep drops those for which that is older than the retention |
| `AlertKnowledge.ClockOfRun` | crates/nimon-hub/src/alert/manager.rs:746-748 | the clock of a run is moved by what elapses and by nothing else |
| `AlertKnowledge.ReportIsJudged` | crates/nimon-hub/src/alert/manager.rs:1870-1890 | rules judge a report as it stands, with the state in which the device was last known and its predictions |
| `AlertKnowledge.SweepJudges` | crates/nimon-hub/src/alert/manager.rs:934-952 | and a sweep judges a device by its last report |
| `AlertAnswers.EdgeAlertAnswered` | crates/nimon-hub/src/alert/manager.rs:1540-1625 | an edge alert is there afterwards under the name of its metric, and has fired now or less than a cooldown ago, unless a hold keeps it closed; nothing else changes |
| `AlertAnswers.PredictionAnswered` | crates/nimon-hub/src/alert/manager.rs:1955-1990 | so is a prediction that reaches the threshold; any other touches no alert |
| `AlertAnswers.SweepSettlesDevices` | crates/nimon-hub/src/alert/manager.rs:934-952 | a sweep settles every rule on every known device: alerts of cleared rules are resolved, and rules on silence or predictions that fire have theirs, unless window, hold or cap stand against it |
| `AlertAnswers.TimeBasedIff` | crates/nimon-hub/src/alert/manager.rs:819-856 | a rule can fire in a sweep exactly if silence or a prediction has a part in its condition, however deep |
| `AlertAnswers.ReportBreaches` | crates/nimon-hub/src/alert/manager.rs:746-769 | a report begins the breach of a rule with a window, lets one that is going on go on from where it began, and ends it if the rule does not fire |
| `AlertAnswers.OthersKeepBreaches` | crates/nimon-hub/src/alert/manager.rs:746-856 | nothing but reports, sweeps and the removal of the device touches a breach |
| `AlertKnowledge.SettingsMean` | crates/nimon-hub/src/alert/manager.rs:771-802 | cooldowns, caps, windows and the retention in milliseconds: a rule's own before the general ones, with their least values |
| `AlertAnswers.OthersWaitForReports` | crates/nimon-hub/src/alert/manager.rs:819-856 | and any other does nothing in a sweep unless it is cleared |
| `AlertCaps.CapHoldsIff` | README.md:446-446 | the cap of a rule holds in all runs that the socket lets through if and only if the configuration lets nothing else raise alerts of its id: no edge alert, no prediction at any finite probability, no offline detection |
| `AlertCaps.SlugCapHoldsIff` | README.md:446-446 | for the ids that the configuration file leads to: exactly if the id does not begin with `pred-`, unless no finite probability reaches the threshold, and is not that of the offline alert, unless offline detection is off |
| `AlertCaps.CapsHold` | crates/nimon-hub/src/alert/manager.rs:797-808 | with any other id no run has more active alerts of the rule than its cap |
| `AlertCaps.ForeignAlertsPileUp` | crates/nimon-hub/src/alert/manager.rs:627-629 | with such an id for every n a run with n alerts at once: n predictions at probability 1 or n edge alerts, all about devices that their edge owns, or n silent edges |
| `AlertCaps.SlugIsNoEdgeAlert` | crates/nimon-hub/src/alert/manager.rs:42-45 | ids made from rule names never collide with edge alerts |
| `AlertCaps.OfflineIdIsASlug` | crates/nimon-hub/src/alert/manager.rs:41-43 | but a name can lead to the id of the built-in offline alert |
| `AlertCaps.PredictionIdIsASlug` | crates/nimon-hub/src/alert/manager.rs:44-45 | or to that of a prediction type of one word |
| `EdgeSocket.OwnsIff` | crates/nimon-hub/src/server/ws.rs:225-234 | an edge owns exactly itself and the ids that it gives to its devices |
| `EdgeSocket.SharedIff` | crates/nimon-hub/src/server/ws.rs:278-303 | two edges own a device in common, against the promise of lines 278-280, exactly if the name of one, with a colon behind it, begins that of the other, or they are the same |
| `EdgeSocket.PlainEdgesShareNothing` | crates/nimon-hub/src/server/ws.rs:278-303 | edges without colons in their names keep that promise |
| `EdgeSocket.EveryAlertIsOwned` | crates/nimon-hub/src/server/ws.rs:543-598 | in every run behind the socket each alert there has been is about a device that its edge owns, or is the offline alert of the edge, and each known device is filed under an owner |
| `AlertHolds.RunningHold` | crates/nimon-hub/src/alert/manager.rs:785-795 | inside the cooldown the hold of an alert resolved by hand is in force, and counts from that resolution, unless it was lifted |
| `AlertHolds.LiftedIff` | crates/nimon-hub/src/alert/manager.rs:1029-1077 | a step lifts exactly the running holds that it makes the manager forget: by a removal of the device that the manager does not know as another edge's; by a sweep, if the device is stale, whatever the cooldown, or the resolution older than the retention |
| `AlertReopening.LiftedInRunIff` | crates/nimon-hub/src/alert/manager.rs:1029-1077 | so in every run a hold has been lifted exactly if some such event came while it ran |
| `AlertReopening.ReportReopensIff` | README.md:452-452 | inside the cooldown a report re-opens the last alert of its key, resolved by hand, if and only if nothing holds it: its hold was lifted (the id of the offline alert, which no report has, is never held) |
| `AlertReopening.RuleReopensIff` | README.md:452-452 | a firing rule does so if and only if the hold was lifted, or the rule has the id of the offline alert, and its cap has room |
| `AlertReopening.OfflineIdIsNeverHeld` | crates/nimon-hub/src/alert/manager.rs:785-795 | in every run a rule with the id of the offline alert opens an alert that is closed exactly if its cap has room, whatever was resolved by hand and when |
| `AlertReopening.ManualResolutionHolds` | README.md:452-452 | in every run, of two alerts of one key with the first resolved by hand the second opens after the cooldown, unless some event lifted the hold or the key has the id of the offline alert |
| `AlertReopening.RemovalReopens` | crates/nimon-hub/src/alert/manager.rs:1626-1642 | a removal by an edge that owns the device, the alert's own or another, lets the alert re-open at the instant it was resolved |
| `AlertReopening.RemovalLiftsBetweenIff` | crates/nimon-hub/src/server/ws.rs:225-234 | behind the socket, a removal by one edge can lift a hold of another's alerts if and only if the name of one, with a colon behind it, begins that of the other, or they are the same |
| `AlertReopening.StalenessReopens` | crates/nimon-hub/src/alert/manager.rs:1029-1048 | so does a sweep that gives up a device silent for longer than the retention, with any cooldown |
| `AlertReopening.PruningReopens` | crates/nimon-hub/src/alert/manager.rs:1051-1052 | a hold older than the retention is pruned, so a longer cooldown is cut short |
| `OfflineAlerts.LatchedIff` | crates/nimon-hub/src/alert/manager.rs:1803-1834 | each step latches an edge exactly by the resolution, by hand, of an alert with the id of the offline alert on it, and unlatches it exactly by its being seen |
| `OfflineAlerts.LatchedInRunIff` | crates/nimon-hub/src/alert/manager.rs:1803-1834 | so in every run an edge is latched exactly if it has not been seen since such a resolution |
| `OfflineAlerts.OfflineReopensIff` | crates/nimon-hub/src/alert/manager.rs:984-1022 | in every run that the socket lets through a sweep opens the closed offline alert of an edge if and only if the edge is silent, and has been seen since the last such resolution, if there was one |
| `OfflineAlerts.OfflineAlertReopens` | README.md:452-454 | with detection on there is such a run for every edge, in which the alert re-opens as long after its resolution as an edge may be silent |
| `OfflineAlerts.OfflineRuleReopens` | crates/nimon-hub/src/alert/manager.rs:1815-1834 | a threshold rule with that id: its alert re-opens at the instant it was resolved, with nothing forgotten |
| `AlertFlapping.AlertsFollowLatch` | crates/nimon-hub/src/alert/manager.rs:819-856 | in whole runs, whatever else happens, a threshold rule raises no more alerts on a device than its latch opens, as long as they end by the rule alone |
| `AlertFlapping.AlertsCostVariation` | README.md:447-449 | so k alerts of an ordering rule with margin h take a movement of the metric of at least 2h(k-1), less 2h per boolean report |
| `AlertFlapping.HoveringAlertsOnce` | README.md:447-449 | and a metric that hovers raises at most one |
| `AlertActor.Manager.OpenAlert` | crates/nimon-hub/src/alert/manager.rs:631-649 | a new alert under a new id |
| `AlertActor.Manager.FireAgain` | crates/nimon-hub/src/alert/manager.rs:651-682 | a re-fire, loud exactly if not acknowledged |
| `AlertActor.Manager.ResolveKeys` | crates/nimon-hub/src/alert/manager.rs:864-885 | the loop that resolves a set of alerts |
| `AlertActor.Manager.FireRuleNow` | crates/nimon-hub/src/alert/manager.rs:768-811 | cooldown, suppression, hold and cap |
| `AlertActor.Manager.Fire` | crates/nimon-hub/src/alert/manager.rs:745-766 | the duration window |
| `AlertActor.Manager.Evaluate` | crates/nimon-hub/src/alert/manager.rs:828-853 | one rule on one device |
| `AlertActor.Manager.EvaluateDevice` | crates/nimon-hub/src/alert/manager.rs:813-856 | the loop over the rules |
| `AlertActor.Manager.Ingest` | crates/nimon-hub/src/alert/manager.rs:1583-1602 | a re-report, a hold, or a new alert |
| `AlertActor.Manager.HandleStatus` | crates/nimon-hub/src/alert/manager.rs:1870-1910 | a device report |
| `AlertActor.Manager.HandlePrediction` | crates/nimon-hub/src/alert/manager.rs:1916-1990 | a prediction, remembered and, if likely enough, reported |
| `AlertActor.Manager.HandleRemoved` | crates/nimon-hub/src/alert/manager.rs:1626-1642 | a removal |
| `AlertActor.Manager.Find` | crates/nimon-hub/src/alert/manager.rs:1760-1763 | the search by id finds the one active alert of that id |
| `AlertActor.Manager.HandleAcknowledge` | crates/nimon-hub/src/alert/manager.rs:1754-1773 | an acknowledgement |
| `AlertActor.Manager.HandleResolve` | crates/nimon-hub/src/alert/manager.rs:1815-1834 | a manual resolution, held or latched |
| `AlertActor.Manager.SweepSessions` | crates/nimon-hub/src/alert/manager.rs:916-937 | live sessions count as seen |
| `AlertActor.Manager.SweepAllDevices` | crates/nimon-hub/src/alert/manager.rs:939-956 | every known device, in any order of the map |
| `AlertActor.Manager.ExpireAll` | crates/nimon-hub/src/alert/manager.rs:958-985 | predictions and reported alerts that are overdue |
| `AlertActor.Manager.OpenSilentEdges` | crates/nimon-hub/src/alert/manager.rs:987-1027 | offline alerts of silent edges |
| `AlertActor.Manager.ForgetStale` | crates/nimon-hub/src/alert/manager.rs:1029-1048 | devices without a report or an alert for long |
| `AlertActor.Manager.Sweep` | crates/nimon-hub/src/alert/manager.rs:909-1055 | the whole sweep |
| `ConditionConfig.RoundTripIff` | crates/nimon-hub/src/config.rs:318-419 | a condition written in any mixture of nested and flat shapes, with or without nulls, under either name of the operator, is read back as itself exactly when all its integers fit in 32 bits |
| `ConditionConfig.ReadBack` | crates/nimon-hub/src/config.rs:318-419 | with 64-bit integers it is read back with each integer cut to 32 bits |
| `ConditionConfig.StylesAgree` | crates/nimon-hub/src/config.rs:265-286 | the two documented shapes mean the same |
| `ConditionConfig.FlatKindBack` | crates/nimon-hub/src/config.rs:338-354 | no flat shape is captured by the keys of another kind |
| `ConditionConfig.DocToBody` | crates/nimon-hub/src/config.rs:318-357 | nested and flat documents lead to the same fields under the same kind |
| `ConditionConfig.Normalises` | crates/nimon-hub/src/config.rs:318-419 | every accepted document has a normal form in every style, with the same meaning |
| `ConditionConfig.ParsedInRange` | crates/nimon-hub/src/config.rs:363-419 | whatever is accepted, its integers come out within 32 bits |
| `ConditionConfig.AsI32` | crates/nimon-hub/src/config.rs:368-368 | the cast keeps the low 32 bits, and the number exactly if it fits |
| `ConditionConfig.MinutesCut` | crates/nimon-hub/src/config.rs:372-379 | minutes beyond 32 bits are cut silently, beyond 64 bits refused |
| `ConditionDocs.DenotesIff` | crates/nimon-hub/src/config.rs:265-461 | the parser accepts exactly the documents that denote a condition, as that condition: nested or flat, told by the first of seven keys, with whole numbers for numbers, the short name of an operator before the long one, and nothing coerced |
| `RuleConversion.ConvertIff` | crates/nimon-hub/src/config.rs:782-857 | a parsed condition is accepted exactly when every node is: operator and status spellings known, threshold present, margin finite and not negative |
| `RuleConversion.ConvertedMargins` | crates/nimon-hub/src/config.rs:799-803 | no unusable margin reaches the rules |
| `RuleConversion.FileRoundTripIff` | crates/nimon-hub/src/config.rs:318-857 | a rule condition can be written to the file in any style and spelling and read back as itself exactly when its integers fit and its margins are usable |
| `RuleConversion.AcceptedDocuments` | crates/nimon-hub/src/config.rs:318-857 | of every accepted document the condition is well-formed and survives being written anew |
| `RuleTexts.MeansIff` | crates/nimon-hub/src/config.rs:766-857 | a condition is converted into exactly what its words mean: spellings of operators and states, "greater than" and "and" where nothing is said |
| `RuleSlug.MakeSlug` | crates/nimon-hub/src/config.rs:859-876 | the loop computes the slug |
| `RuleSlug.SlugIsWords` | crates/nimon-hub/src/config.rs:861-876 | the slug is the runs of letters and digits of the name, in lower case, joined by dashes; "rule" if there are none |
| `RuleSlug.SlugIsSlug` | crates/nimon-hub/src/config.rs:859-876 | it is nonempty, of lower-case letters, digits and dashes, with no dash doubled or at an end |
| `RuleSlug.FixedIff` | crates/nimon-hub/src/config.rs:861-876 | the names that are their own slug are exactly the well-formed ones, so slugging twice changes nothing |
| `BuildRules.FindFreeId` | crates/nimon-hub/src/config.rs:983-990 | the suffix search terminates and finds the first free id of base, base-2, base-3, ... |
| `BuildRules.Pigeonhole` | crates/nimon-hub/src/config.rs:984-989 | as many candidates taken, as many ids used, because no two candidates are alike |
| `BuildRules.FreeId` | crates/nimon-hub/src/config.rs:983-990 | the id found is unused, and is the base exactly if the base was |
| `BuildRules.BuildAll` | crates/nimon-hub/src/config.rs:970-1022 | the loop over the configs computes the specified rules, actions and errors |
| `BuildRules.Partition` | crates/nimon-hub/src/config.rs:970-1022 | every config becomes one rule or one error, in order; each rule has the first free id for the slug of its name |
| `BuildRules.IdsDistinct` | crates/nimon-hub/src/config.rs:983-1000 | no two rules share an id |
| `BuildRules.IdsAreSlugs` | crates/nimon-hub/src/config.rs:861-1000 | ids, numbered ones included, are well-formed slugs |
| `BuildRules.ActionsOfRules` | crates/nimon-hub/src/config.rs:1001-1016 | executable actions are kept under exactly the ids of accepted rules that have one, fallback included |
| `BuildRules.Stable` | crates/nimon-hub/src/config.rs:977-1021 | appending configs renames no rule built before |
| `BuildRules.RejectedLeaveNoTrace` | crates/nimon-hub/src/config.rs:977-1021 | configs that fail to convert influence neither rules nor actions |
| `BuildRules.TryRuleKeeps` | crates/nimon-hub/src/config.rs:878-915 | an accepted rule keeps name and switch, asks for the slug of its name, has usable margins and a cooldown that is not negative |
| `RuleTexts.BecomesIff` | crates/nimon-hub/src/config.rs:876-915 | exactly those rules are accepted, as which rules: condition and severity make sense, no script asks to run as somebody else, the cooldown is its own and not negative or the default brought into range |
| `RuleTexts.ActionsMean` | crates/nimon-hub/src/config.rs:992-1003 | the ids of actions and fallbacks name rule and kind |
| `Poller.EveryRun` | web/src/lib/store.ts:83-150 | at most one live fetch and one timer, never both; a started poller always has one of them; the published state is consistent |
| `Poller.StepGoodIff` | web/src/lib/store.ts:83-104 | a step breaks that exactly when it starts the poller while an un-aborted fetch is alive, and then there are two |
| `Poller.DisciplineSuffices` | web/src/lib/store.ts:97-104 | refreshing only while started rules that out |
| `Poller.OverlapHappens` | web/src/lib/store.ts:83-104 | a refresh before the start leads to two live fetches |
| `Poller.AbortedIsInert` | web/src/lib/store.ts:113-140 | an aborted fetch writes nothing, schedules nothing and starts nothing |
| `Poller.ShowsTheLatest` | web/src/lib/store.ts:113-129 | in every run the data shown is the last response still wanted, as the object that first carried that text; an error is shown, and the data stale, exactly if a failure came after it |
| `Poller.CoalescedRefreshIff` | web/src/lib/store.ts:97-141 | a refresh coalesced into a fetch is followed, when that ends, by a fetch that begins after it exactly if the fetch was still wanted, by a started poller, and no stop comes in between |
| `PollerTurns.RefreshFetches` | web/src/lib/store.ts:97-112 | a refresh with nothing in flight fetches now, timer or not, and leaves no timer; otherwise it takes note and asks for nothing |
| `PollerTurns.StartFetches` | web/src/lib/store.ts:83-87 | a start fetches now, unless the poller is started |
| `PollerTurns.TimerFetches` | web/src/lib/store.ts:146-150 | so does the timer |
| `PollerTurns.StopStops` | web/src/lib/store.ts:89-95 | a stop leaves no timer and no fetch that is wanted |
| `PollerTurns.RemembersIff` | web/src/lib/store.ts:97-104 | in every run the poller has another fetch in mind exactly if a refresh coalesced since a wanted fetch last ended |
| `PollerTurns.EndLeads` | web/src/lib/store.ts:131-141 | when a wanted fetch ends a started poller fetches again at once exactly in that case, and otherwise sets its timer; a stopped one does neither |
| `PollerTurns.RunningIff` | web/src/lib/store.ts:83-95 | it is started exactly if the last of starts and stops was a start |
| `PollerObject.PollerTask.StartPolling` | web/src/lib/store.ts:83-87 | start |
| `PollerObject.PollerTask.StopPolling` | web/src/lib/store.ts:89-95 | stop: the timer is cleared and the live fetch aborted |
| `PollerObject.PollerTask.RefreshNow` | web/src/lib/store.ts:97-104 | refresh: coalesces or fetches |
| `PollerObject.PollerTask.OnResponse` | web/src/lib/store.ts:113-124 | the body after the response |
| `PollerObject.PollerTask.OnError` | web/src/lib/store.ts:125-129 | the body after a failure |
| `PollerObject.PollerTask.OnFinally` | web/src/lib/store.ts:131-141 | the wind-up: again, schedule, or nothing if aborted |
| `Reconcile.Reconcile` | crates/nimon-widget/ui/app.js:99-116 | the list becomes one node per item in item order, then only children shadowed from the start by a later one of their key (none exactly if the child keys were distinct); present keys keep their node object; unchanged keys mean no insertion and no removal |
| `Reconcile.IndexByKey` | crates/nimon-widget/ui/app.js:101-102 | per key the last child |
| `Reconcile.PlaceNode` | crates/nimon-widget/ui/app.js:110-112 | the node ends up behind those placed, with an insertion only if it was not there already |
| `Reconcile.NodeFor` | crates/nimon-widget/ui/app.js:105-109 | the node of the key, taken out of the map, or a new one; updated either way |
| `Reconcile.PlaceAll` | crates/nimon-widget/ui/app.js:103-114 | the loop over the items |
| `Reconcile.DropRest` | crates/nimon-widget/ui/app.js:115-115 | the pass over the nodes nobody claimed |
| `Reconcile.OnlyShadowedRemain` | crates/nimon-widget/ui/app.js:101-115 | what is neither placed nor dropped is exactly what the key map never held |
| `Reconcile.ShadowedEmptyIff` | crates/nimon-widget/ui/app.js:101-102 | nothing is shadowed exactly when the child keys are distinct |
| `Reconcile.NextInLine` | crates/nimon-widget/ui/app.js:103-112 | with keys and order unchanged the next child is always the one the next item takes |
| `GeoPump.EveryRun` | crates/nimon-widget/ui/app.js:621-648 | one call at a time, each for a request of its own in order, none repeating the geometry in force; when idle the last request is in force, or it is the failed one and nothing counts as applied |
| `GeoPump.KeyInjective` | crates/nimon-widget/ui/app.js:631-632 | no two geometries share a key |
| `GeoPump.Settles` | crates/nimon-widget/ui/app.js:627-648 | once requests stop the host's next two replies bring the pump to rest, without changing its target |
| `GeoPump.WishStep` | crates/nimon-widget/ui/app.js:621-648 | of all events exactly a stale retry turns the pump away from the last measurement |
| `GeoPump.WishServed` | crates/nimon-widget/ui/app.js:655-665 | without stale retries an idle pump has served the last measurement or marked it for a retry |
| `GeoPump.WishLost` | crates/nimon-widget/ui/app.js:750-750 | a run in which the retry of a poll replaces a newer measurement for good |
| `GeoPump.Round` | crates/nimon-widget/ui/app.js:623-624 | heights are rounded to the nearest integer |
| `GeoPumpObject.GeoRecord.RequestGeo` | crates/nimon-widget/ui/app.js:623-626 | a request replaces a waiting one and pumps |
| `GeoPumpObject.GeoRecord.PumpGeo` | crates/nimon-widget/ui/app.js:627-635 | the coroutine up to its call |
| `GeoPumpObject.GeoRecord.Reply` | crates/nimon-widget/ui/app.js:635-648 | the coroutine after the reply |
| `GeoPumpObject.GeoRecord.RetryFailed` | crates/nimon-widget/ui/app.js:750-750 | the retry at the end of a poll |
| `LibCache.EveryRun` | crates/nimon-ni/src/common.rs:173-226 | for any number of threads: loads never overlap, none follows a success, none starts within `retry` of the end of a failed one, all callers that get a library get the same one, and the initialisation error is never returned |
| `LibCache.StepKeepsInv` | crates/nimon-ni/src/common.rs:194-225 | the invariant behind that survives every call, lock grant, return, failure, panic and passage of time |
| `LibCache.LoadsIff` | crates/nimon-ni/src/common.rs:201-211 | with the lock in hand a thread loads exactly when no load has succeeded and every failure has expired |
| `LibCache.PanicIsNotCached` | crates/nimon-ni/src/common.rs:201-212 | after a panic the next thread loads at once, unless an earlier failure is still fresh |
| `LibReturns.ReturnsIff` | crates/nimon-ni/src/common.rs:173-226 | each event lets exactly that caller return, and with what: the loaded library at once, the last failure while it is fresh, or the outcome of its own load |
| `LibReturns.ClockOfRun` | crates/nimon-ni/src/common.rs:195-205 | the clock of the retry time is moved by ticks alone |
| `LibReturns.EveryCallReturns` | crates/nimon-ni/src/common.rs:173-226 | in every run every call has returned, has panicked or is still inside |
| `LibCacheObject.Cache.Begin` | crates/nimon-ni/src/common.rs:198-200 | the look before the lock |
| `LibCacheObject.Cache.Enter` | crates/nimon-ni/src/common.rs:201-211 | the look after the lock, the negative cache, or the start of the load |
| `LibCacheObject.Cache.Succeed` | crates/nimon-ni/src/common.rs:212-219 | the loaded library is cached and handed out |
| `LibCacheObject.Cache.Fail` | crates/nimon-ni/src/common.rs:220-223 | the failure is recorded with its time |
| `LibCacheObject.Cache.Unwind` | crates/nimon-ni/src/common.rs:201-212 | a panic releases the lock and records nothing |
| `Envelope.MakeEnvelope` | web/src/components/TempChart.tsx:8-22 | the nested loops compute the specified downsampling |
| `Envelope.Extremes` | web/src/components/TempChart.tsx:14-18 | the inner loop finds the first lowest and the first highest point of its bucket |
| `Envelope.LengthIff` | web/src/components/TempChart.tsx:8-22 | at most n points are left exactly when n/2 whole buckets cover the series |
| `Envelope.LengthBound` | web/src/components/TempChart.tsx:8-22 | at most n points for even n, n+1 for odd n |
| `Envelope.OddIsExceeded` | web/src/components/TempChart.tsx:8-22 | every odd n is exceeded, by every series of a multiple of n points |
| `Envelope.BoundsAllIff` | web/src/components/TempChart.tsx:8-22 | n bounds the result for all series exactly if it is even |
| `Envelope.OnlyInputInOrder` | web/src/components/TempChart.tsx:8-22 | only points of the series are left, in time order |
| `Envelope.SpikesSurvive` | web/src/components/TempChart.tsx:8-22 | every point lies between two that are left, of its own bucket |
| `Envelope.ExtremesSurvive` | web/src/components/TempChart.tsx:8-22 | the extremes of the whole series are left |
| `PathEncoding.EncodeSegment` | crates/nimon-cli/src/api.rs:77-89 | the loop computes the encoding |
| `PathEncoding.GoesAsItIs` | crates/nimon-cli/src/api.rs:79-89 | exactly letters, digits and four signs are not escaped |
| `PathEncoding.DecodeEncode` | crates/nimon-cli/src/api.rs:77-89 | percent-decoding undoes it for any bytes (RFC 3986, section 2.1) |
| `PathEncoding.EncodeNormal` | crates/nimon-cli/src/api.rs:77-89 | the result is in the normal form of RFC 3986, section 6.2.2 |
| `PathEncoding.EncodeDecode` | crates/nimon-cli/src/api.rs:77-89 | and that form is unique: every normal text is the encoding of what it decodes to |
| `PathEncoding.PathRoundTrip` | crates/nimon-cli/src/api.rs:91-98 | splitting a path at its slashes and decoding recovers any list of segments |
| `PathEncoding.ReachesItsTargetIff` | crates/nimon-cli/src/api.rs:91-98 | the segments are read back from the path that is left after the removal of dot segments (RFC 3986, section 5.2.4) exactly when none of them is `.` or `..` |
| `PathEncoding.RemoveDotsResolves` | crates/nimon-cli/src/api.rs:91-98 | removing the dot segments from the text of a path comes to removing them, and what `..` cancels, from the list of segments |
| `PathEncoding.OnlyDotsAreDots` | crates/nimon-cli/src/api.rs:79-89 | a segment is encoded to `.` or `..` exactly if that is what it is |
| `CsvExport.FieldRoundTrip` | crates/nimon-cli/src/format.rs:239-246 | a field is read back by an RFC 4180 reader that stops at the right delimiter, whatever follows |
| `CsvExport.RowRoundTrip` | crates/nimon-cli/src/format.rs:239-246 | so is a row of any number of fields |
| `CsvExport.FileRoundTrip` | crates/nimon-cli/src/format.rs:239-246 | and a file of any number of rows |
| `CsvExport.PointRowRoundTrip` | crates/nimon-cli/src/main.rs:442-449 | the exported rows, whose second field is printed as it stands, are read back too |
| `DeviceIdentity.Buffers.IdentityKey` | crates/nimon-edge/src/devices.rs:118-150 | the key by alias, serial, resource or number, and the counters afterwards |
| `DeviceIdentity.Buffers.Sweep` | crates/nimon-edge/src/actor/device_manager.rs:665-675 | a whole sweep gives every device its key, whatever the buffers held before |
| `DeviceIdentity.KeyOfFields` | crates/nimon-edge/src/devices.rs:114-150 | a key is the alias, else the serial number, else the resource name, trimmed and passed over if blank, else the product with the number of the device among those without any |
| `DeviceIdentity.NumberedInjective` | crates/nimon-edge/src/devices.rs:145-148 | `product#n` determines product and number, even if product names contain `#` |
| `DeviceIdentity.NamelessDistinct` | crates/nimon-edge/src/devices.rs:118-150 | devices without a name of their own get pairwise distinct keys, however mixed with others |
| `DeviceIdentity.SameKeyIff` | crates/nimon-edge/src/devices.rs:118-150 | two devices of a sweep share a key exactly if they have one name, or the name of one is the number of the other |
| `DeviceIdentity.KeysDistinctIff` | crates/nimon-edge/src/devices.rs:118-150 | all keys of a sweep are distinct exactly if no name is given twice and none is `product#n` with n up to the number of nameless devices of the product |
| `DeviceIdentity.NumbersInOrder` | crates/nimon-edge/src/devices.rs:118-150 | per product the numbers are exactly 1 to k, in enumeration order |
| `DeviceIdentity.KeyStableIff` | crates/nimon-edge/src/devices.rs:118-150 | such a device keeps its key between sweeps exactly when as many of its kind come before it |
| `DeviceIdentity.SameIdIff` | crates/nimon-edge/src/devices.rs:152-159 | two devices share a hub id exactly if they are the same, or one is called after the other and its edge |
| `DeviceIdentity.EdgesCollideIff` | crates/nimon-edge/src/devices.rs:152-159 | two edges can produce one id, with keys that are not empty, exactly if they are the same or one, with a colon behind it, begins the other |
| `DeviceIdentity.DeviceIdInjective` | crates/nimon-edge/src/devices.rs:152-159 | within one edge, and between edges of which neither begins the other in that way, an id identifies edge and key |
| `DeviceIdentity.NamelessIdsDistinct` | crates/nimon-edge/src/actor/device_manager.rs:673-675 | so in one sweep the hub ids of nameless devices are distinct, too |
| `Simulator.StreamOfDevice` | crates/nimon-sim/src/model.rs:442-527 | in every run of sweeps, config updates, snapshots and heartbeats the messages about a device are statuses, alerts exactly when the rank rises, predictions only without an error, then at most one removal, then nothing |
| `Simulator.RemovalIsLast` | crates/nimon-sim/src/model.rs:447-460 | nothing follows the removal |
| `Simulator.AlertsAreTrue` | crates/nimon-sim/src/model.rs:486-507 | an alert states the temperature of the status behind it, which exceeds the threshold in force |
| `Simulator.CountBalance` | crates/nimon-sim/src/model.rs:382-389 | the device count is the initial number less the removals sent |
| `Simulator.HeartbeatTells` | crates/nimon-sim/src/model.rs:397-408 | and that is what every heartbeat says |
| `Simulator.SweepOfDevice` | crates/nimon-sim/src/model.rs:447-467 | the exact timeline: sampled before tick a, silent for six sweeps, removed in the next, silent for ever; any other device is sampled in every sweep |
| `Simulator.Schedule` | crates/nimon-sim/src/model.rs:447-467 | the lifecycle after any number of sweeps |
| `Simulator.SteadyNeverAlerts` | crates/nimon-sim/src/model.rs:336-345 | a walking device never alerts while the thresholds stay above its range |
| `Simulator.WalkStaysWithin` | crates/nimon-sim/src/model.rs:77-92 | a walk stays in its range and respects its ceiling |
| `Simulator.PredictionInRange` | crates/nimon-sim/src/model.rs:530-552 | a prediction names a time of at least a minute and a probability from 0.5 to 0.95 |
| `SimReadings.SweepSays` | crates/nimon-sim/src/model.rs:442-556 | in every run a device sampled in a sweep says exactly what its kind has it read: walk, ramp or flap; the state of that; an alert exactly if it is worse than before; and a prediction, with its likelihood and minutes, exactly if due |
| `SimReadings.SettingsOfRun` | crates/nimon-sim/src/model.rs:409-426 | the settings of a run are those last made, each for itself |
| `SimReadings.CeilingMeans` | crates/nimon-sim/src/model.rs:79-85 | under a ceiling a walk and its baseline stay in a range as near to theirs as may be |
| `SimulatorEdge.EdgeSim.Step` | crates/nimon-sim/src/model.rs:439-528 | one sweep, in place |
| `SimulatorEdge.EdgeSim.SweepDevices` | crates/nimon-sim/src/model.rs:447-524 | the loop over the devices |
| `SimulatorEdge.EdgeSim.ApplyConfig` | crates/nimon-sim/src/model.rs:408-424 | partial thresholds and a positive interval are taken over |
| `SimulatorEdge.EdgeSim.StateSnapshot` | crates/nimon-sim/src/model.rs:426-437 | register, then the status of every active device |
| `SimulatorEdge.EdgeSim.SendHeartbeat` | crates/nimon-sim/src/model.rs:397-408 | the heartbeat, in terms of everything sent before |
| `SimulatorEdge.EdgeSim.CountDevices` | crates/nimon-sim/src/model.rs:382-389 | all devices but the removed ones |
| `SimulatorEdge.EdgeSim.HasDevice` | crates/nimon-sim/src/model.rs:391-395 | some device of that id that is not removed |

## Left out

- Sockets, HTTP, SQLite, processes, the NI drivers and the async runtime: only their outcomes appear (success, failure, panic, timeout, still running).
- The lag between aborting a timed-out write and its end: an aborted write counts as finished at once.
- What a flush returns when the worker dies under it: its channel closes and the wait ends early; the model only drops the barrier.
- The body of `call`: it is a priority write whose last act is to send the result.
- f64 rounding: finite numbers are exact reals. NaN and the infinities are kept where the code tests for them (rules, condition files); temperatures and chart values are finite.
- Wrap-around of 32- and 64-bit counters (writer statistics, ticks, id suffixes, device numbers), which would take more than four thousand million steps.
- Wall clocks: time is a parameter or a clock that moves in steps; in `ActionRuntime` it moves in whole seconds, not past a timer that is due and not while a free permit waits to be taken.
- Texts of logs and of most errors, and the formatting of numbers inside them.
- YAML syntax, tags and anchors: documents are trees of values, numbers are integers or floats.
- Non-ASCII white space in `trim` (device names, names of edges, delays) and non-ASCII case mapping (severities); in slugs such characters end up as dashes either way.
- `plan_services` and `plan_script`: whether they accept is an input of the request; their checks of names and of the file system are not modelled.
- The alert manager's database: what it writes, restoring alerts and devices at a restart, and acknowledging or resolving alerts that are not active. Runs start with an empty manager.
- The contents of alerts (severity, title, message, value), the notifier and the action executor: a fire records only that both are asked to act. Metric history, metadata and the order of the alert list are left out.
- AlertFlapping.AlertsFollowLatch: alerts that end by hand or with their device are outside its assumption, since the rule has not cleared them; so are rules whose ids begin like those of edge alerts or predictions, whose alerts a sweep ends when they are overdue.
- Description, channels, repeat suppression and firing cap of a rule, and the settings inside an action: copied as they are.
- JavaScript numbers beyond 2^53 and heights that are not numbers, in geometry keys.
- `positionPanel`, tab visibility and the poller's interval: they do not change the order of events.
- Generics and listeners of `createStore`, and the text of API errors.
- `mem_free_mb`, slots and products in simulator messages; the sine of the flapping device and all random draws are inputs.
- `device_layout`, `niceTicks`, `Table`, `truncate`, `compact_duration`, `decode_c_bytes` and similar small functions: they are settled by reading.
- Classifiers and parse tables (`classify_device`, `classify_health`, `visa_interface`) and the registry's plain map operations.
- ActionRuntime.AnswersInTime: says nothing of cancelled actions, whose callers are gone.
- ActionRuns.LateIff: a slot that comes free in the very second of the start counts as left, and permits go first come, first served, as the semaphore has it.
- Simulator.StreamOfDevice: devices are told apart by their position; that their ids differ is a matter of `device_layout`.
- LibCache.EveryRun: the fairness of the lock is not modelled, so nothing is said about how long a thread waits.
