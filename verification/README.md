# Behavioural model of the trading backend's control and message-safety logic

The project models the stateful core of the trading system and proves what its small protocols keep.

- **System modes** (`Modes`, `ModeManagers`, `ModeRuns`, `ModeRestarts`, `ModeStability`, `ModeFlips`,
  `ModeTraces`, `Oscillations`, `ModeSimulator`, `ModeReports`). The controller moves between six ordered modes.
  Its thresholds depend on the current mode, escalations wait for a hold time, de-escalations for a minimum duration and go one step
  at a time, and a manual override freezes it. The object (`ModeManager`) is proved against a specification
  on values, and the theorems quantify over every sequence of calls with a clock that never runs backwards.
  The replay (`RunSimulation`) copies the controller's step inline; it is proved equal to the live
  controller's `evaluate` folded over the snapshots, and its whole report is proved exact.
- **Message safety** (`Dedup`, `Subscriptions`, `DlqReplay`, `DlqRuns`, `PelRecovery`, `BlockCursor`). Every Redis, RPC
  or publish call is a step that works, fails, or (for stream commands) takes effect and fails all the same.
- **Sliding windows** (`Windows`, `RateWindows`, `CircuitBreakers`). A list pruned at every call is compared
  with the full history.
- **Two refinement targets** (`EventReducer`, `Drawdown`): list upserts against keyed maps, and the one-pass
  maximum drawdown against its definition over all pairs.

Time is a real number, and each clock reading is a parameter. Objects whose methods change state are classes
whose methods are proved against functions on a value view of the object.

## What the code turns out to do

- Flapping is bounded more tightly than the hold times suggest at first: in T seconds a fresh controller
  changes its mode at most 3 * floor(T / 10) + 2 times, and 2 * floor(T / 60) + 1 times without emergencies.
  Both bounds are attained. After a restart it can be one change more.
- Some constant metrics settle nowhere; then the controller changes its mode within any four evaluations, for
  ever. A pool at 75 per cent is such a case. Where metrics settle is a matter of threshold tests, stated for all
  metrics by `Settles`.
- The live loop damps behavioural metrics by the current mode's sensitivity, the replay uses the raw ones. So
  the replay of recorded metrics can settle where the live loop never settles, settle elsewhere, or never
  settle where the live loop does. `LiveLoopUnsettledIff` says exactly when the first happens.
- A mode restored from Redis has no entry time, so the first change after a restart escapes the dwelling guard and
  may take PROTECTED straight to NORMAL; every later one is guarded. `ModeRestarts` proves this over all runs.
  Setting an override persists its mode, so a restart makes it the controller's own mode.
- A live override hides a drawdown: trading goes off at once unless an override is in force.
- The trading and writing gates read the controller's own mode. An override freezes that mode but is not read by
  the gates, so an override to EMERGENCY_STOP does not close them.
- The simulator's oscillation detector compares raw direction sizes. Two moves in a row between modes that can be
  proposed are never of equal size and direction, so on a simulation it counts transitions, not flips: any three
  transitions, or two escalations, within two minutes are reported, even in a run that only escalates.
- The cockpit returns a count of 0 for fewer than three transitions. Its verdict is right for every threshold
  of at least two; its count is wrong exactly when there are two transitions of opposite direction.
- In the dead-letter replay the dictionary that puts an entry back names the new `_retry_count` first and then
  spreads the old fields over it, so a stored counter wins: the counter of a new event stays at 1, and an event
  that keeps failing is retried for ever and never poisoned. With the opposite order it is poisoned after three
  retries. Both hold over all runs, with other events in between. Nothing is lost under either order.
- The ingester remembers a hash before it publishes, so an event whose publish failed is dropped as a duplicate
  until 1000 others have been accepted.
- Rejected attempts count against a user of the command limiter, not against a key of the log suppressor, so
  the limiter is the stricter of the two.
- Two new-alert events commute, as sets of ids, unless one is new and the other is the oldest of a full list.
- The drawdown does not depend on the first outcome, since that is already the first peak. It covers the falls from
  the starting equity exactly when no later equity is below minus its value.
- The subscription refresh compares lengths. It is exact if and only if the list outgrew the current one or nothing
  stale was subscribed; an asset listed twice, which the markets table does not rule out, lets a stale one survive.
- A message is dead-lettered once for every claim beyond the retry limit whose xadd takes effect, so a lost xack
  duplicates it.
- A circuit breaker that opens at clock 0 never recovers by itself, since an opening time of 0 counts as missing.
- A block cursor at 0 counts as missing, so a listener that connects at block 0 never polls.

## Model

| member | source | states |
|---|---|---|
| Modes.ProposeIsSeverestAssessment | backend/app/core/system_mode.py:185-234 | the decision chain answers with the severest mode that any single metric asks for |
| Modes.SeverityOrder | backend/app/core/system_mode.py:236-244 | the six modes in their order of severity |
| Modes.StructuralAlarmsGetThrough | backend/app/core/mode_context.py:11-46 | damping never hides a structural alarm: the live proposal is at least as severe as each undamped structural metric alone demands |
| Modes.ProposeAntitone | backend/app/core/mode_context.py:66-133 | a more severe current mode never proposes a more severe mode, with raw or with damped metrics |
| Modes.ProposeRange | backend/app/core/system_mode.py:185-234 | only NORMAL, DEGRADED, PROTECTED and EMERGENCY_STOP are proposed, the last exactly for an emergency or kill flag |
| Modes.RawTableIsProposalTable | backend/app/core/mode_simulator.py:233 | the replay's proposals form an antitone table |
| Modes.LiveTableIsProposalTable | backend/app/main.py:3841-3850 | so do the live loop's proposals from metrics damped by the current mode's sensitivity |
| Modes.AtMostOneStableMode | backend/app/core/mode_context.py:66-133 | at most one mode proposes itself for given metrics |
| ModeManagers.ModeManager.constructor | backend/app/core/system_mode.py:71-86 | a fresh controller is in NORMAL, with no override and no entry time |
| ModeManagers.ModeManager.IsOverrideValid | backend/app/core/system_mode.py:106-114 | an override is in force exactly when it has no lifetime or this has not passed; otherwise it is dropped |
| ModeManagers.ModeManager.GetMode | backend/app/core/system_mode.py:88-91 | the mode of an override in force, by its numbers, and the own mode otherwise |
| ModeManagers.ModeManager.SetManualOverride | backend/app/core/system_mode.py:130-151 | replaces the override and nothing else |
| ModeManagers.ModeManager.ClearManualOverride | backend/app/core/system_mode.py:153-156 | removes the override and nothing else |
| ModeManagers.ModeManager.Evaluate | backend/app/core/system_mode.py:158-174 | with an override in force nothing changes and its mode is answered; otherwise it is dropped, the specified evaluation is made and the own mode answered |
| ModeManagers.ModeManager.ApplyHysteresis | backend/app/core/system_mode.py:236-269 | the mode after hold time, minimum duration and step-down; changes nothing |
| ModeManagers.ModeManager.Transition | backend/app/core/system_mode.py:271-288 | sets the mode and the entry time of that mode only |
| ModeManagers.ModeManager.LoadFromRedis | backend/app/core/system_mode.py:301-312 | restores the mode and leaves entry times and override alone |
| ModeRuns.CallKeepsReachable | backend/app/core/system_mode.py:236-288 | one call keeps the state invariant; only an evaluation changes the mode, and only past the dwelling guard |
| ModeRuns.RunKeepsReachable | backend/app/core/system_mode.py:158-288 | the state invariant holds after every run of calls |
| ModeRuns.EntryIsLastChange | backend/app/core/system_mode.py:271-288 | in every run the current mode's entry time is the clock of the last change |
| ModeRuns.DwellAndStepDown | backend/app/core/system_mode.py:236-269 | in every run of a fresh controller SHADOW and READ_ONLY are never reached, PROTECTED never goes straight to NORMAL, and every change respects the time since the last change |
| ModeRuns.DwellAndStepDownFrom | backend/app/core/system_mode.py:236-269 | the same from every state that a fresh controller can reach |
| ModeRuns.NoTradingAfterProtected | backend/app/core/system_mode.py:314-323 | trading stays off for 120 seconds after PROTECTED is entered, unless EMERGENCY_STOP intervenes |
| ModeRuns.DrawdownStopsTrading | backend/app/core/system_mode.py:158-269 | an evaluation that sees a drawdown above 15 per cent leaves trading on if and only if the mode was NORMAL and a live override hides it |
| ModeRuns.GatesCloseInOrder | backend/app/core/system_mode.py:314-323 | in every run of a fresh controller trading is closed from DEGRADED on, writing from PROTECTED on, processing in EMERGENCY_STOP only |
| ModeRuns.GatesByOrder | backend/app/core/system_mode.py:314-323 | for all modes trading closes from SHADOW on, writing from PROTECTED on, processing from READ_ONLY on |
| ModeRuns.EvaluationLeadsTo | backend/app/core/system_mode.py:158-288 | from every mode and entry time, in seconds: when an evaluation changes the mode, that it goes to the proposal itself unless an entered PROTECTED would go below DEGRADED, and which entry time it sets |
| ModeRuns.NeverBeyondProposal | backend/app/core/system_mode.py:236-269 | no evaluation lowers the mode below its proposal or raises it to another one |
| ModeRuns.OverrideFreezes | backend/app/core/system_mode.py:158-174 | calls under a live override leave the whole controller unchanged |
| ModeRuns.OverrideAnswersUntilExpired | backend/app/core/system_mode.py:88-151 | over every run an override set at t answers all reads until its lifetime has passed, and the own mode from then on |
| ModeRuns.EvaluationActsOnceExpired | backend/app/core/system_mode.py:106-174 | over every run an evaluation acts on its metrics exactly once the lifetime has passed, as if there were no override |
| ModeRuns.FlappingBound | backend/app/core/system_mode.py:236-288 | at most 3 * floor(T / 10) + 2 mode changes in T seconds, for arbitrary calls and metrics |
| ModeRuns.FlappingBoundIsAttained | backend/app/core/system_mode.py:236-288 | for every number of rounds there is a run that makes exactly that many changes |
| ModeRuns.CalmFlappingBound | backend/app/core/system_mode.py:236-288 | at most 2 * floor(T / 60) + 1 changes when no emergency or kill flag is raised |
| ModeRuns.CalmFlappingBoundIsAttained | backend/app/core/system_mode.py:236-288 | and that bound is attained by calm runs of every length |
| ModeRestarts.RestartsKeepReachable | backend/app/core/system_mode.py:301-312 | in every run with restored modes the current mode either was restored without an entry time and has not changed, or the state is one that a fresh controller reaches |
| ModeRestarts.UnenteredIffRestored | backend/app/core/system_mode.py:301-312 | the first holds if and only if some load restored a mode without an entry time and nothing restored or changed the mode since |
| ModeRestarts.SkipsStepDownIffLoaded | backend/app/core/system_mode.py:236-312 | in every run with restored modes only the first change after such a load escapes the dwelling guard; PROTECTED goes straight to NORMAL if and only if it was so restored, is unchanged, no override is in force and NORMAL is proposed |
| ModeRestarts.ChangesFollowProposals | backend/app/core/system_mode.py:236-312 | in every run with restored modes a change goes to its proposal, unless an entered PROTECTED would go below DEGRADED, when it goes to DEGRADED |
| ModeRestarts.AfterTheFirstChange | backend/app/core/system_mode.py:236-312 | from that first change on every change respects the time since the last one and the step-down |
| ModeRestarts.StaleEntryCounts | backend/app/core/system_mode.py:257-312 | a restored mode that has an old entry time waits from that time, not from the load, and keeps the step-down |
| ModeRestarts.FlappingBoundUnentered | backend/app/core/system_mode.py:236-312 | from a mode without an entry time at most 3 * floor(T / 10) + 3 mode changes in T seconds |
| ModeRestarts.FlappingBoundUnenteredIsAttained | backend/app/core/system_mode.py:236-312 | runs after a restart in PROTECTED attain that bound |
| ModeRestarts.RestartRestoresMode | backend/app/core/system_mode.py:271-312 | without overrides a restart brings back the own mode of the controller |
| ModeRestarts.OverrideBecomesOwnMode | backend/app/core/system_mode.py:130-151 | an override leaves the own mode alone but is what a restart brings back as the own mode |
| ModeStability.HysteresisGivesWay | backend/app/core/system_mode.py:236-269 | after enough evaluations 15 seconds apart hysteresis lets every proposal through |
| ModeStability.NextMoveIsCloser | backend/app/core/system_mode.py:262-269 | every move away from a mode that is not stable shortens the way to the stable one, which is at most 8 evaluations |
| ModeStability.Convergence | backend/app/core/mode_simulator.py:229-278 | constant metrics with a stable mode: at least eight evaluations end in it, from every mode and entry time, and without an entry time |
| ModeStability.FlapsForever | backend/app/core/mode_simulator.py:229-278 | constant metrics without a stable mode: a change within any four consecutive evaluations, from every mode, entered whenever or never |
| ModeStability.RawLimits | backend/app/core/mode_context.py:66-133 | the proposal of each of the six modes for raw metrics, against limits in numbers |
| ModeStability.LiveLimits | backend/app/core/mode_context.py:11-133 | the same for the damped metrics of the live loop |
| ModeStability.RawStableIff | backend/app/core/mode_context.py:66-133 | a mode proposes itself for raw metrics if and only if the threshold tests on the metrics name it as the one where they settle |
| ModeStability.LiveStableIff | backend/app/core/mode_context.py:33-133 | the same for metrics damped by the sensitivity of each mode |
| ModeStability.ReplayConverges | backend/app/core/mode_simulator.py:229-278 | for all constant metrics that settle, evaluations of the raw metrics end there within eight |
| ModeStability.ReplayFlaps | backend/app/core/mode_simulator.py:229-278 | for all others the mode changes within any four evaluations |
| ModeStability.NoStableModeExample | backend/app/core/mode_context.py:66-133 | a pool at 75 per cent has no stable mode, raw or damped |
| ModeStability.LiveLoopConverges | backend/app/main.py:3841-3850 | for all constant metrics that settle when damped, the live loop is there within eight evaluations, from a fresh controller and a restored mode too |
| ModeStability.LiveLoopFlaps | backend/app/main.py:3841-3850 | for all others it changes its mode within any four evaluations |
| ModeStability.DampingLowers | backend/app/core/mode_context.py:33-46 | damping never raises a proposal, keeps EMERGENCY_STOP and does nothing in NORMAL |
| ModeStability.LiveLoopUnsettledIff | backend/app/main.py:3841-3850 | for all metrics: the replay settles and the live loop does not if and only if stated threshold tests hold of the raw and the damped metrics |
| ModeStability.LoopsPartCompany | backend/app/core/mode_simulator.py:233 | three metric vectors on which replay and live loop settle in different places or one of them nowhere |
| ModeStability.ReplaySettlesWhileLiveLoopFlaps | backend/app/core/mode_simulator.py:233 | a backlog of 600 pending messages: the replay settles in DEGRADED, the live loop changes its mode within any four evaluations |
| ModeFlips.CurrentChainIsLongestSuffix | backend/app/main.py:3866-3876 | the chain depth is the length of the longest run of escalations at the end |
| ModeFlips.MaxChainIsLongestBlock | backend/app/core/mode_simulator.py:302-309 | the longest chain is the length of the longest block of consecutive escalations |
| ModeFlips.Evaluator.Observe | backend/app/main.py:3866-3881 | one round of the live counters refines the counting step |
| ModeFlips.OnlineMeetsOffline | backend/app/main.py:3866-3881 | the sign-change count is twice the live flip counter, corrected by the first and the last direction; chain depth and its maximum agree with the offline chains |
| ModeFlips.CountersAgreeWithinOne | backend/app/main.py:3866-3881 | so the two flip counts, the live one doubled, never differ by more than one |
| ModeFlips.DetectOscillation | backend/app/api/cockpit.py:258-271 | the verdict agrees with the sign-change count for every threshold of at least two; the count is right if and only if there are not just two opposite transitions |
| Oscillations.RawFlipsDecompose | backend/app/core/mode_simulator.py:164-209 | the detector's flips are the true reversals plus the changes of size in one direction |
| Oscillations.ModesSeenExact | backend/app/core/mode_simulator.py:164-209 | the reported modes are those the window's transitions touch, each once |
| Oscillations.EarlyBreakIsExact | backend/app/core/mode_simulator.py:164-209 | on time-sorted transitions the early break scans exactly the transitions within the window |
| Oscillations.ScanIsExact | backend/app/core/mode_simulator.py:164-209 | the one-pass scan equals the flips, modes and chain defined on the window's moves |
| Oscillations.ReportsAreComplete | backend/app/core/mode_simulator.py:164-209 | every start whose window oscillates is reported once and in order with its scan, and no other |
| Oscillations.ReportedIff | backend/app/core/mode_simulator.py:190-207 | a start is reported if and only if its window has two flips, or one and ends in two escalations |
| Oscillations.EventsDescribe | backend/app/core/mode_simulator.py:201-207 | every field of every event: the bounds of its window, its flips, no fewer than its true reversals, its final chain, and the modes it touches |
| Oscillations.MovesFollow | backend/app/core/mode_simulator.py:181-198 | the moves of a window are its transitions that go somewhere, in order |
| Oscillations.TwoReversalsAreReported | backend/app/core/mode_simulator.py:164-209 | two true reversals within a window are always reported, in an event that counts no fewer flips |
| Oscillations.ReportedWithoutReversalsIff | backend/app/core/mode_simulator.py:190-207 | exactly when a start is reported that the rule on true reversals would not report, by reversals, size changes and the final chain |
| Oscillations.LoneTransitionIsNotReported | backend/app/core/mode_simulator.py:164-209 | the early return below two transitions loses no report |
| Oscillations.ScanWindow | backend/app/core/mode_simulator.py:164-209 | the inner loop computes the scan up to the early break |
| Oscillations.DetectOscillations | backend/app/core/mode_simulator.py:164-209 | the nested loops give one event for every reported start, in order, which describes its window field by field |
| ModeTraces.ChangesAreConnected | backend/app/core/mode_simulator.py:260-278 | a trace's changes are connected, move, and lie at least 15 seconds apart |
| ModeTraces.ChangesExact | backend/app/core/mode_simulator.py:265-278 | every transition is a change of the trace, with its index and its time of 15 seconds a step, in order |
| ModeTraces.ChangesComplete | backend/app/core/mode_simulator.py:265-278 | and every change of the trace has a transition |
| ModeTraces.WindowsAreExact | backend/app/core/mode_simulator.py:164-209 | so a window of the detector holds exactly the changes within it |
| ModeTraces.ReportMeetsLiveMetrics | backend/app/core/mode_simulator.py:295-309 | on one trace the report's chain equals the live metric's maximum and its flip count is the corrected double |
| ModeTraces.SpentIsSteps | backend/app/core/mode_simulator.py:280-291 | time in a mode is 15 seconds for every step entered in it |
| ModeTraces.StepsSumUp | backend/app/core/mode_simulator.py:280-291 | the steps over all modes add up to all steps |
| ModeTraces.TimesSumUp | backend/app/core/mode_simulator.py:280-291 | the times in all modes add up to the whole duration |
| ModeTraces.TimeInMode | backend/app/core/mode_simulator.py:280-291 | the loop computes the time spent in every mode, 0 for a mode never entered |
| ModeTraces.CountFlips | backend/app/core/mode_simulator.py:295-300 | the loop computes the number of direction reversals |
| ModeTraces.LongestChain | backend/app/core/mode_simulator.py:302-309 | the loop computes the longest chain of escalations |
| ModeSimulator.Step | backend/app/core/mode_simulator.py:229-278 | the inlined step reaches the state of the live evaluation; its verdict says whether the mode moved, agreed, or was kept although a more severe or a milder one was proposed |
| ModeSimulator.LedgerIsExact | backend/app/core/mode_simulator.py:212-278 | after every prefix: the live controller's state, the transitions are the mode changes, and every step is counted once |
| ModeSimulator.EnterKeepsExact | backend/app/core/mode_simulator.py:229-278 | one step keeps the ledger exact |
| ModeSimulator.TalliesSumUp | backend/app/core/mode_simulator.py:229-278 | every step agrees, moves, or is held up or down, and only one of these |
| ModeSimulator.TalliesAreKept | backend/app/core/mode_simulator.py:242-256 | rejections by hold time are the steps that keep their mode against a more severe proposal, those by hysteresis against a milder one |
| ModeSimulator.ReplayLoop | backend/app/core/mode_simulator.py:216-278 | the loop computes the ledger of all snapshots |
| ModeSimulator.RunSimulation | backend/app/core/mode_simulator.py:212-323 | the whole report: transitions, time in mode as 15 seconds a step with the total duration as sum, the steps kept against a more severe and against a milder proposal, flips, longest chain, oscillation events |
| ModeSimulator.ReplayIsEvaluate | backend/app/core/mode_simulator.py:212-278 | the replay is the run of the live controller, without an override and in its start mode since time 0, over evaluations at 15, 30, ... seconds |
| ModeSimulator.ModesOfPrefixes | backend/app/core/mode_simulator.py:229-278 | the trace holds the mode after every prefix of the snapshots |
| ModeSimulator.ConstantReplay | backend/app/core/mode_simulator.py:212-278 | the replay of constant metrics is a run of spaced evaluations with as many changes as transitions |
| ModeSimulator.SimulationConverges | backend/app/core/mode_simulator.py:212-278 | a simulation of constant metrics that settle is where they settle after eight snapshots and ever after |
| ModeSimulator.SimulationFlaps | backend/app/core/mode_simulator.py:212-278 | in a simulation of constant metrics that settle nowhere any four more snapshots bring another transition |
| ModeReports.ChangesAreProposable | backend/app/core/mode_simulator.py:229-278 | every transition of a simulation goes to a mode that can be proposed |
| ModeReports.FlipsAreTransitions | backend/app/core/mode_simulator.py:164-293 | for every simulation the flip count of a window is the number of its transitions less one, two equal first moves out of SHADOW or READ_ONLY counted once |
| ModeReports.ReportsCountTransitions | backend/app/core/mode_simulator.py:164-293 | so, for every start mode, a start is reported if and only if its window holds three transitions, or two and a rising end |
| ModeReports.SimulationReportedWithoutReversalsIff | backend/app/core/mode_simulator.py:164-293 | and exactly when a start is reported although the rule on true reversals would not report it |
| ModeReports.RisingRunIsReported | backend/app/core/mode_simulator.py:164-293 | a simulation that only escalates, by warnings, an open breaker and an emergency, is reported from its first transition on |
| Dedup.Ingester.CheckDuplicate | backend/app/ingesters/polymarket_ws.py:265-282 | refines the cache step and its three counters |
| Dedup.Ingester.PublishNormalized | backend/app/ingesters/polymarket_ws.py:361-390 | an event is published exactly when it is valid, not a duplicate and the publish works; otherwise it is counted as dropped, and the hash of a failed publish stays remembered |
| Dedup.RememberKeepsAgreement | backend/app/ingesters/polymarket_ws.py:265-282 | remembering one more hash, with or without an eviction, keeps cache and history in agreement |
| Dedup.CacheAgreesWithHistory | backend/app/ingesters/polymarket_ws.py:265-282 | in every run set and order list hold exactly the last 1000 accepted hashes, without repeats |
| Dedup.AcceptancesFarApart | backend/app/ingesters/polymarket_ws.py:265-282 | two acceptances of one hash have at least 1000 others between them, even with Redis down |
| Dedup.MarksAreKept | backend/app/core/dedup.py:23-31 | every accepted hash whose write went through stays covered by its key for the whole lifetime |
| Dedup.NoRepeatWithinTtl | backend/app/core/dedup.py:8-31 | with Redis working, two acceptances of one hash are at least the lifetime apart |
| Dedup.RejectedIffRecentlyAccepted | backend/app/ingesters/polymarket_ws.py:265-282 | with Redis off a call is rejected if and only if its hash is among the last 1000 accepted |
| Dedup.KeysAreMarks | backend/app/core/dedup.py:23-31 | a key is there exactly when an acceptance wrote it, and expires 3600 seconds after the last write |
| Dedup.RejectedIffKnown | backend/app/ingesters/polymarket_ws.py:265-282 | with Redis on a call is rejected if and only if its hash is among the last 1000 accepted or a working lookup finds a key written less than 3600 seconds before |
| Dedup.PublishedAreAccepted | backend/app/ingesters/polymarket_ws.py:361-390 | over every run the published hashes are accepted ones in order, each acceptance published at most once |
| Dedup.PublicationsFarApart | backend/app/ingesters/polymarket_ws.py:361-390 | two publications of one hash have at least 1000 acceptances between them |
| Dedup.PublishedAgainIff | backend/app/ingesters/polymarket_ws.py:361-390 | an accepted hash, whether or not its publish worked, is published again if and only if at least 1000 others were accepted since and Redis does not report it |
| Subscriptions.EntriesComeFromRows | backend/app/ingesters/polymarket_ws.py:73-102 | for distinct conditions every entry of the condition index is that of one row |
| Subscriptions.RowsHaveEntries | backend/app/ingesters/polymarket_ws.py:87-93 | and every row that lists tokens has its entry |
| Subscriptions.LiveCounts | backend/app/ingesters/polymarket_ws.py:90 | the ids of a row are its tokens without the empty ones, as often as listed |
| Subscriptions.LiveFollows | backend/app/ingesters/polymarket_ws.py:90 | and in the order of the row |
| Subscriptions.AssetsComeFromRows | backend/app/ingesters/polymarket_ws.py:87-93 | the indexed assets are exactly the token ids of the rows that are not empty |
| Subscriptions.IndexesAreInverse | backend/app/ingesters/polymarket_ws.py:73-102 | for distinct conditions the asset index is the exact inverse of the condition index if and only if no asset belongs to two rows |
| Subscriptions.CurrentAssetsAreDistinct | backend/app/ingesters/polymarket_ws.py:104-108 | for distinct conditions the list of all assets has no repeats if and only if no asset is listed twice, in one row or in two |
| Subscriptions.CurrentAssetsAreIndexed | backend/app/ingesters/polymarket_ws.py:104-108 | for distinct conditions the list of all assets holds exactly the indexed assets |
| Subscriptions.RefreshIsExact | backend/app/ingesters/polymarket_ws.py:193-214 | although only lengths are compared: for a current list without repeats the refreshed list is the current asset set without repeats, whatever was subscribed |
| Subscriptions.RefreshIsExactIff | backend/app/ingesters/polymarket_ws.py:199-211 | for all lists: the refreshed list holds exactly the current assets if and only if it outgrew the current list before pruning or nothing stale was subscribed |
| Subscriptions.RefreshFromRows | backend/app/ingesters/polymarket_ws.py:193-214 | after a refresh from rows that list no asset twice the subscribed list is the set of indexed assets, without repeats |
| Subscriptions.MissingCounts | backend/app/ingesters/polymarket_ws.py:199 | the new ids are the current ones that are not subscribed, as often as they are current |
| Subscriptions.MissingFollows | backend/app/ingesters/polymarket_ws.py:199 | and in their order |
| Subscriptions.RepeatedAssetHidesStaleOne | backend/app/ingesters/polymarket_ws.py:193-214 | two refreshes from rows, the second with an asset listed twice in one row: a stale subscription survives |
| Subscriptions.Subscriber.RefreshMappings | backend/app/ingesters/polymarket_ws.py:73-102 | both indexes are rebuilt from the rows, or both kept when the query fails |
| Subscriptions.Subscriber.GetAssetIds | backend/app/ingesters/polymarket_ws.py:104-108 | the assets of all conditions in index order |
| Subscriptions.Subscriber.Chunks | backend/app/ingesters/polymarket_ws.py:201-205 | the ids in messages of 200, the last one not empty and not longer |
| Subscriptions.Subscriber.Refresh | backend/app/ingesters/polymarket_ws.py:193-214 | the new subscription list, and the messages, which hold exactly the missing ids in order |
| DlqReplay.NothingIsLost | backend/app/main.py:1265-1308 | after every command of the handling of an entry no payload has fewer copies than before, under any failure and either order of the counters, and other entries stay |
| DlqReplay.FailureFreeStepConserves | backend/app/main.py:1265-1308 | with working Redis the handling moves its payload: copies neither lost nor made |
| DlqReplay.BatchEndsInLast | backend/app/main.py:1264-1313 | the outcome of a batch is the last of the stores it goes through |
| DlqReplay.BatchLosesNothing | backend/app/main.py:1264-1313 | the same at every point of a batch that stops at the first failure |
| DlqReplay.RunLosesNothing | backend/app/main.py:1256-1313 | and over every run of arrivals and replays |
| DlqReplay.Replayer.HandleMessage | backend/app/main.py:1265-1308 | the handling goes through the specified stores and reports whether the batch goes on |
| DlqReplay.Replayer.ReplayBatch | backend/app/main.py:1264-1313 | the loop goes through exactly the specified stores, stops at the first failing command and ends in the last one |
| DlqReplay.MeantRetriesAreBounded | backend/app/main.py:1301-1308 | with the new counter winning, the limit is reached exactly after the retries that were left |
| DlqReplay.LiteralCounterIsPinned | backend/app/main.py:1301-1308 | as written, the counter never rises above 1 for a new entry and never changes for an old one |
| DlqReplay.RetriedGoesRound | backend/app/main.py:1265-1308 | below the limit a failing event is put back, and nothing is poisoned or published |
| DlqRuns.PublishCarriesEvent | backend/app/main.py:1284-1293 | what is published is the text of the entry |
| DlqRuns.PoisonCarriesEvent | backend/app/main.py:1272-1282 | a poison entry names the id and the source of the entry and carries its text |
| DlqRuns.PutBackCarriesEvent | backend/app/main.py:1301-1308 | an entry put back carries source and text under a new id at the end of the stream |
| DlqRuns.BatchStopsWhereItRaises | backend/app/main.py:1265-1313 | whatever fails, a batch handles exactly the entries up to the first that raises |
| DlqRuns.RunsKeepCountersTame | backend/app/main.py:1256-1313 | over every run, whatever fails, counters stay numbers; the literal one never exceeds 1, the meant one never the limit |
| DlqRuns.HandlesBeforeGarbage | backend/app/main.py:1265-1313 | with Redis working a batch handles exactly the entries before the first counter that is no number |
| DlqRuns.LiteralNeverPoisons | backend/app/main.py:1256-1313 | as written, over every run, whatever fails, nothing is poisoned if no entry is at the limit to begin with |
| DlqRuns.LiteralNeverPoisonsTame | backend/app/main.py:1256-1313 | so as written nothing is ever poisoned from counters that the writers and the loop make |
| DlqRuns.LiteralPoisonsIffStoredCount | backend/app/main.py:1256-1313 | as written, some run poisons something if and only if an entry is at the limit to begin with and no counter that is no number stands before it |
| DlqRuns.RunHolds | backend/app/main.py:1256-1313 | over every run in which an event is never published, whatever fails in Redis, every arrival of it waits or is poisoned |
| DlqRuns.LiteralRetriesForEver | backend/app/main.py:1256-1313 | as written, over every such run every arrival of the event waits for ever and the poison stream stays as it is |
| DlqRuns.MeantRunSpends | backend/app/main.py:1256-1313 | in the meant order, with Redis working, arrivals of an event that is never published are conserved and its handlings are accounted for by its counters and poisonings |
| DlqRuns.MeantPoisonsAfterThreeRetries | backend/app/main.py:1256-1313 | in the meant order, with Redis working and whatever else arrives and is handled in between, an event that arrives once and is never published waits with one retry more after each of three handlings, is poisoned once by the fourth and handled no more |
| DlqRuns.MeantPoisonsWithinFourRounds | backend/app/main.py:1256-1313 | and it is poisoned by the time the whole stream has been replayed four times |
| PelRecovery.Recovery.RecoverPendingMessages | backend/app/core/recovery.py:28-92 | one call refines the fold over the claimed messages, with its result |
| PelRecovery.CallAccounts | backend/app/core/recovery.py:48-88 | claimed, dead-lettered and errors add up to the messages claimed unless the outer handler is hit |
| PelRecovery.ResultCountsOutcomes | backend/app/core/recovery.py:48-88 | claimed are the claims within the retry limit, dead-lettered those beyond it whose commands work, errors those beyond it with one that fails |
| PelRecovery.CallResult | backend/app/core/recovery.py:28-92 | the whole result of a call in every case, failing calls included |
| PelRecovery.EntryTellsClaims | backend/app/core/recovery.py:50-71 | a dead-letter entry names the message and the number of its claims; the message leaves the pending set if the xack takes effect |
| PelRecovery.RecoveryIsSafe | backend/app/core/recovery.py:43-92 | in every run a message leaves the pending set only acknowledged by a consumer or dead-lettered, is dead-lettered only beyond the retry limit, and the counters are the true numbers of claims |
| PelRecovery.DeadLetteredAtMostOnce | backend/app/core/recovery.py:58-79 | at most one dead-letter entry a message when no xack is lost and no failing xadd takes effect |
| PelRecovery.EntriesAreAdditions | backend/app/core/recovery.py:50-79 | in every run a message has exactly as many dead-letter entries as it has claims beyond the retry limit whose xadd took effect |
| PelRecovery.DeadLetteredAtMostOnceIff | backend/app/core/recovery.py:50-79 | so it is dead-lettered at most once if and only if there is at most one such claim |
| PelRecovery.LostAckDuplicates | backend/app/core/recovery.py:58-79 | a run from delivery on with every xack lost: each claim beyond the retry limit makes one more entry of the message |
| BlockCursor.Listener.PublishTrades | backend/app/ingesters/polygon_rpc.py:72-98 | the loop publishes one trade for every transaction of every block in the logs it gets to, which are all unless it breaks off |
| BlockCursor.Listener.PublishSummaries | backend/app/ingesters/polygon_rpc.py:100-107 | one summary for every block seen, with the number of its transactions |
| BlockCursor.Listener.Publish | backend/app/ingesters/polygon_rpc.py:72-107 | the publishing of a cycle: all messages, or exactly the first ones when it breaks off |
| BlockCursor.Listener.PollCycle | backend/app/ingesters/polygon_rpc.py:59-113 | a cycle refines the polling step; the cursor moves only after the last publish |
| BlockCursor.TableExact | backend/app/ingesters/polygon_rpc.py:72-83 | the table of a cycle holds exactly the blocks and transactions with a log |
| BlockCursor.EachTradeOnce | backend/app/ingesters/polygon_rpc.py:72-98 | within a complete cycle every transaction with a log is published exactly once and no other |
| BlockCursor.EachBlockOnce | backend/app/ingesters/polygon_rpc.py:100-107 | within a complete cycle every block with a log is summarised exactly once, with the number of its transactions, and no other |
| BlockCursor.CountsSumToTrades | backend/app/ingesters/polygon_rpc.py:100-109 | the transaction counts of the summaries sum to the trades published |
| BlockCursor.FetchExact | backend/app/ingesters/polygon_rpc.py:52-57 | the fetched logs are those of the block range |
| BlockCursor.RangesAreContiguous | backend/app/ingesters/polygon_rpc.py:65-110 | completed ranges follow one another without gap or overlap from the start to the cursor |
| BlockCursor.CursorNeverMovesBack | backend/app/ingesters/polygon_rpc.py:59-115 | no cycle lowers the cursor |
| BlockCursor.MovesIffNotZero | backend/app/ingesters/polygon_rpc.py:65-110 | a cycle moves the cursor if and only if it completes with a newer block and the cursor is not 0, and then to that block |
| BlockCursor.LeavesStartIff | backend/app/ingesters/polygon_rpc.py:59-115 | over a run the cursor leaves its start if and only if that is not 0 and some cycle completes beyond it |
| BlockCursor.CursorCoversChain | backend/app/ingesters/polygon_rpc.py:59-115 | in every run every transaction with a log up to the cursor has been published at least once, and nothing without a log |
| BlockCursor.ExactlyOnceWithoutBreaks | backend/app/ingesters/polygon_rpc.py:59-115 | exactly once when no cycle breaks off |
| BlockCursor.StuckAtBlockZero | backend/app/ingesters/polygon_rpc.py:65 | a cursor at block 0 never moves |
| Windows.YoungExact | backend/app/core/circuit_breaker.py:31 | pruning drops exactly the timestamps that have left the window |
| Windows.PruneTwice | backend/app/core/circuit_breaker.py:29-37 | pruning at an earlier time loses nothing a later pruning keeps |
| Windows.WindowWithinYoung | src/remote/commandHandler.ts:57-59 | a window that contains now holds no more than the kept timestamps |
| RateWindows.AttemptsExact | src/remote/commandHandler.ts:57-60 | the limiter's list is exactly all attempts of the last window |
| RateWindows.LimiterBound | src/remote/commandHandler.ts:50-63 | no 60-second window, wherever it starts, contains more than ten accepted commands |
| RateWindows.LockedOutIffCrowded | src/remote/commandHandler.ts:57-62 | an attempt is accepted if and only if fewer than ten attempts, accepted or not, came before it in the window |
| RateWindows.CommandLimiter.CheckRateLimit | src/remote/commandHandler.ts:50-63 | decides by the user's attempts and touches no other user |
| RateWindows.LoggedExact | backend/app/core/logging.py:39-45 | the suppressor's list is exactly what it let through in the last window |
| RateWindows.SuppressorBound | backend/app/core/logging.py:39-45 | no window contains more logged messages than the limit |
| RateWindows.SuppressedIffFull | backend/app/core/logging.py:39-45 | a request is let through if and only if fewer than the limit were in the last window |
| RateWindows.StormSuppressor.ShouldLogNow | backend/app/core/logging.py:39-45 | decides by the key's requests and touches no other key |
| RateWindows.LimiterIsStricter | src/remote/commandHandler.ts:50-63 | on one trace with equal limits the suppressor accepts whatever the limiter accepts |
| CircuitBreakers.CircuitBreaker.State | backend/app/core/circuit_breaker.py:22-27 | an open breaker becomes half open exactly when its recovery time has passed since its opening; nothing else changes |
| CircuitBreakers.CircuitBreaker.RecordFailure | backend/app/core/circuit_breaker.py:29-37 | a failure refines the specified step |
| CircuitBreakers.CircuitBreaker.RecordSuccess | backend/app/core/circuit_breaker.py:39-42 | a success closes a half-open breaker only |
| CircuitBreakers.CircuitBreaker.ResetBreaker | backend/app/core/circuit_breaker.py:44-46 | a reset closes the breaker and clears the failures |
| CircuitBreakers.BreakerRefinesHistory | backend/app/core/circuit_breaker.py:29-37 | in every run the pruned list is what the last failure's window leaves of all failures since the last clear |
| CircuitBreakers.OpensExactlyAtThreshold | backend/app/core/circuit_breaker.py:29-37 | a failure opens the breaker exactly when the failures since the last clear that are younger than the window reach the threshold |
| CircuitBreakers.TotalOpensCountsOpenings | backend/app/core/circuit_breaker.py:29-37 | the counter is the number of entries into OPEN, and only failures make one |
| CircuitBreakers.StaysOpen | backend/app/core/circuit_breaker.py:22-42 | without a reset or a read after the recovery time an open breaker stays open |
| CircuitBreakers.ClosesOnlyByProbeOrReset | backend/app/core/circuit_breaker.py:22-46 | every way into CLOSED, in every run, is a reset, or a success on a breaker that has been half open since a read that found it recovered |
| CircuitBreakers.OpenTimeIsLastOpening | backend/app/core/circuit_breaker.py:29-37 | the time such a read measures from is that of the last opening |
| CircuitBreakers.ReadRecoversIff | backend/app/core/circuit_breaker.py:22-27 | over every run a read makes an open breaker half open if and only if the recovery time has passed since the last opening, and that was not at clock 0 |
| CircuitBreakers.ProbeAndSuccessClose | backend/app/core/circuit_breaker.py:22-42 | a success after such a read closes it with an empty failure list |
| CircuitBreakers.QuietEvents | backend/app/core/circuit_breaker.py:22-46 | a success changes nothing unless the breaker is half open, a read nothing unless it is open; a reset closes it and clears the failures only |
| CircuitBreakers.LeavesOpenAfterRecovery | backend/app/core/circuit_breaker.py:22-42 | without resets a breaker that has opened and is not open has waited for its recovery time |
| CircuitBreakers.OpeningsFarApart | backend/app/core/circuit_breaker.py:22-42 | so two openings are at least the recovery time apart |
| CircuitBreakers.OpeningsBound | backend/app/core/circuit_breaker.py:22-42 | and T seconds hold at most floor(T / recovery time) + 1 openings |
| EventReducer.ApplyUpsert | frontend/lib/eventApplier.ts:118-171 | on the map that the list stands for the edit is an upsert of the key; keys stay unique, the other objects keep their place, a new one goes to the front |
| EventReducer.UpsertRefinesMap | frontend/lib/eventApplier.ts:118-171 | a list upsert is a keyed-map upsert and keeps keys unique |
| EventReducer.FillEffect | frontend/lib/eventApplier.ts:118-143 | a fill changes only the filled size and price of its position, or opens a position with the terms of the fill and no other field; all other positions stay |
| EventReducer.MergeEffect | frontend/lib/eventApplier.ts:145-171 | an order or trade update overwrites the fields it brings, keeps the others, and leaves other entries alone |
| EventReducer.EventEffect | frontend/lib/eventApplier.ts:84-183 | what every event but an alert does to the state, list by list and field by field |
| EventReducer.ReducerRefinesMaps | frontend/lib/eventApplier.ts:84-193 | after any events the lists are the fold of keyed upserts, ids are unique and at most 200 alerts are kept |
| EventReducer.ReplayIsNoOp | frontend/lib/eventApplier.ts:84-193 | an event received twice in a row changes nothing the second time |
| EventReducer.DistinctEntitiesCommute | frontend/lib/eventApplier.ts:84-193 | events about distinct entities commute as maps, two alerts excepted |
| EventReducer.AddAlertIds | frontend/lib/eventApplier.ts:185-193 | a known alert changes nothing; a new one goes to the front and only the oldest of a full list leaves |
| EventReducer.AlertEffect | frontend/lib/eventApplier.ts:185-193 | a new alert carries every field of the payload under the event id and goes to the front of at most 200; a known one changes nothing |
| EventReducer.AlertsCommuteIff | frontend/lib/eventApplier.ts:185-193 | two alerts commute as sets of ids if and only if neither is new while the other is about to be pushed out |
| EventReducer.PushesOutMeansOldest | frontend/lib/eventApplier.ts:185-193 | about to be pushed out means: the oldest of a full list |
| Drawdown.MaxDrawdown | backend/app/api/analytics.py:257-266 | the one-pass loop computes the deepest fall from an outcome to a later one, 0 for no outcomes |
| Drawdown.MaxDrawdownBounds | backend/app/api/analytics.py:257-266 | that value is unique, never negative and at most all losses together |
| Drawdown.FirstOutcomeDoesNotCount | backend/app/api/analytics.py:257-266 | for all outcomes the value does not depend on the first one, however great a loss it is |
| Drawdown.FullDrawdownIff | backend/app/api/analytics.py:257-266 | the value also covers the falls from the starting equity if and only if no later equity is below minus the value; so it does when the first outcome is no loss |

## Left out

- Reason strings, votes of other modules, the last transition time and the recorded transitions: the decisions never read them. The persisted mode is read by a restart and is modelled, but not that writing it can fail or that it expires.
- Floating-point rounding: metrics, times and amounts are real numbers.
- A start mode or a stored mode that is no mode name: the source raises or keeps its mode; modes are an enumeration here.
- The context fields for Redis-memory warnings and circuit-breaker tolerance: no decision reads them.
- The cockpit's time-in-mode and trend figures, and the ratio reports of the breaker and the suppressor: single-pass sums over data the model does not record.
- The ingester's live traces and raw event buffer, normalisation and validation of events: an event is valid or not by a parameter.
- HTTP routes, background task plumbing, the dashboard's components and its refetch rule, the agents, the paper engine, decoding of trade logs.
- Trimming of streams by their maximum length and eviction of Redis keys before they expire: lengths are assumed to stay below the limits.
- Two coroutines interleaving inside one call: calls on one object follow one another.
- Process restarts of in-memory state, except for the restored mode.
- Chain reorganisations and nodes that answer with other blocks than asked for.
- Subscriptions.IndexesAreInverse: for rows with distinct conditions, which the markets table guarantees.
- Dedup.NoRepeatWithinTtl: needs the lookup and the write of the two acceptances to go through; failures of Redis are swallowed by the source.
- EventReducer.DistinctEntitiesCommute: as maps, since the order of a list is the order of first arrival.
