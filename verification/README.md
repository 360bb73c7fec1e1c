# PerceptShift verification

A Dafny model of the algorithms and state machines at the heart of PerceptShift, with proofs of
what they keep, refine and invert. `dafny verify dfyconfig.toml` checks everything.

The program adapts inference to a deadline: a controller chooses among certified model profiles, an
engine executes the chosen one and reports back to it, detections are post-processed, and telemetry
is fanned out to clients. The model follows the program's form. Objects that the program updates in
place are classes with the same fields, loops are loops with invariants, and each such method is
proved against a function of the old state. What the program promises is then proved about those
functions, over every input and, for the controller, the engine and the limiter, over every sequence
of calls.

## What the modules contain

- `Common`, `Sorting`: result types, small arithmetic, and sorting by a comparison.
- `Profiles`, `Eligibility`, `HealthMachine`, `LatencyEstimator`: the parts of the controller.
- `ControllerModel` states what each call does to the controller as functions on values and
  `Controller` is the class that implements them. `ControllerRuns`, `SwitchRuns` and `RecoveryRuns`
  hold the theorems about every sequence of calls.
- `ControllerTables` gives each call of the controller case by case in terms of its fields, and the
  record of a profile over every sequence of calls.
- `EngineModel`, `RuntimeEngine`, `EngineRuns`: set-up, warm-up and the gate in front of inference,
  in the same three layers. A ghost log records what an observer of the engine sees, and it is proved
  to record exactly what happens to the controller.
- `EngineReports`: what a frame reports to its caller and to the controller, in terms of its input.
- `Scenarios`: runs from the initial state that reach the situations in which a promise ends.
- `Detections`, `Stretch`, `YoloAdapter`: suppression of overlapping boxes against a recursive
  specification, undoing the stretch resize, and the decoding of the output tensor.
- `Images`, `Preprocess`: bilinear sampling, the scalar loop and the form in blocks of four.
- `TelemetryHub`: the fan-out hub with bounded queues that drop their oldest event.
- `Pareto`, `Codecs`, `Shapes`, `RateLimiter`: frontier selection, base64 and hex, dynamic shapes
  and byte sizes, and the sliding-window limiter.

## What turned out to be different from a first reading

- The control hold does not need a recovery request or a switch to go away when the controller is
  driven by hand: a failed observation in the fail-closed state moves to degraded with the hold still
  on, and a later stable evaluation releases it (`RecoveryRuns.HoldCanSlipWithoutEngine`, reached by
  the run of `Scenarios.HoldSlipIsReachable`). `RecoveryRuns.HoldReleasedExactly` lists all ways out.
- In the engine, no inference executes after the hold was turned on until there was an accepted
  recovery request, a decision to switch or a new configuration (`EngineRuns.NoInferenceUnderHold`).
  That lift can come while the hold stays on, however: a demotion under the hold leaves it on in the
  degraded state, and a later frame whose active profile is still the best releases it and executes
  (`Scenarios.DemotedHoldLetsFramesThrough`). As long as the engine is fail-closed there is no such
  gap (`EngineRuns.NoInferenceWhileShut`), and `EngineRuns.HeldFrameInfersExactly` says which frames a
  holding engine executes.
- A manual pin looks at the offline envelope of its profile and not at what was measured online, so
  the online bound is guaranteed for automatic switches only (`SwitchRuns.AutomaticTarget` against
  `SwitchRuns.AnyTarget`). `Scenarios.PinIgnoresOnlineBound` is a run in which a profile is dropped
  for its online bound and selected again by a pin.
- `max_det == 0` keeps one box (`Detections.Limited`).
- The adapter clamps to its own input size. Mapped boxes stay inside the source image exactly when
  that size does not exceed the preprocessing size: the final clamp limits position and size
  separately and so does not bring back the far end of a box (`Stretch.MappedInsideSourceExactly`).
- The base64 table lists 128 of its 256 entries, so bytes above 127 are not rejected but read as the
  letter A (`Codecs.HighBytesReadAsA`). Text is rejected exactly for characters below 128 outside
  the alphabet (`Codecs.Base64FailsExactly`).
- When minimised objectives are missing, a certified row can be neither selected nor dominated by a
  selected one. Three rows suffice, with objectives p, then p and r, then r. Whether values exist that
  leave a row uncovered depends only on which objectives are present, and `Pareto.CoverageExactly`
  gives the exact condition. Dominance can even go round in a circle and leave the frontier empty
  (`Pareto.MissingObjectivesCanEmptyTheSelection`).
- The two shape resolvers differ in exactly one family of shapes (`Shapes.TwinsAgreeExactly`).
- A queue size of zero or less makes the telemetry queues unbounded
  (`TelemetryHubs.UnboundedQueuesKeepAll`), and `recent(0)` returns the whole cache.
- The blocked preprocessor does not repeat the size check of the scalar one.
- Stopping the health machine under a hold would break its invariant
  (`ControllerRuns.StoppingKeepsHealthExactly`); nothing calls it.

## Model

| member | source | states |
|---|---|---|
| Eligibility.EvaluateEligibility | cpp/src/runtime/eligibility.cpp:8-46 | a profile is eligible exactly when no reason is reported; each reason is reported exactly under its condition; an unhealthy profile gets another chance after its cooldown until it failed too often |
| HealthMachines.HealthMachine.Transition | cpp/src/runtime/health_machine.cpp:5-11 | a self-transition leaves no trace, any other is appended to the history |
| HealthMachines.HealthMachine.MakeReady | cpp/src/runtime/health_machine.cpp:13-17 | getting ready releases the hold and its reason |
| HealthMachines.HealthMachine.MakeDegraded | cpp/src/runtime/health_machine.cpp:19-21 | degrading keeps the hold as it is |
| HealthMachines.HealthMachine.FailClosed | cpp/src/runtime/health_machine.cpp:23-27 | failing closed raises the hold with its reason even without a state change |
| HealthMachines.HealthMachine.StartRecovery | cpp/src/runtime/health_machine.cpp:29-31 | beginning a recovery changes the state only |
| HealthMachines.HealthMachine.Stop | cpp/src/runtime/health_machine.cpp:33-35 | stopping changes the state only and keeps the hold as it is |
| HealthMachines.HealthMachine.ReleaseHold | cpp/src/runtime/health_machine.cpp:37-40 | clears hold and reason, nothing else |
| LatencyEstimators.LatencyEstimator.constructor | cpp/src/runtime/latency_estimator.cpp:8-12 | the window is at least 8 and starts empty |
| LatencyEstimators.LatencyEstimator.ObserveMs | cpp/src/runtime/latency_estimator.cpp:14-19 | a sample is appended and the oldest dropped once the window is full |
| LatencyEstimators.LatencyEstimator.QuantileMs | cpp/src/runtime/latency_estimator.cpp:21-34 | computes the interpolated quantile of the window and leaves the window alone |
| LatencyEstimators.LatencyEstimator.MadMs | cpp/src/runtime/latency_estimator.cpp:36-50 | computes the median absolute deviation and leaves the window alone |
| LatencyEstimators.LatencyEstimator.ConservativeBoundMs | cpp/src/runtime/latency_estimator.cpp:52-54 | computes quantile plus weighted deviation plus margin |
| LatencyEstimators.WindowIsLastSamples | cpp/src/runtime/latency_estimator.cpp:8-19 | after any samples the window is exactly the last max(window, 8) of them |
| LatencyEstimators.BoundIgnoresOrder | cpp/src/runtime/latency_estimator.cpp:21-54 | the bound depends on the samples as a multiset, not on their order |
| LatencyEstimators.QuantileInWindow | cpp/src/runtime/latency_estimator.cpp:21-34 | the quantile lies between least and greatest sample and has at least floor(q * (n - 1)) + 1 samples at or below it |
| LatencyEstimators.QuantileMonotone | cpp/src/runtime/latency_estimator.cpp:21-34 | raising one sample never lowers the quantile |
| LatencyEstimators.MadIsMedianDeviation | cpp/src/runtime/latency_estimator.cpp:36-50 | the median and the deviation are the least values that cover more than half of the samples |
| LatencyEstimators.QuantileInterpolates | cpp/src/runtime/latency_estimator.cpp:25-33 | between two neighbours of the sorted samples the quantile moves in proportion to its position |
| LatencyEstimators.BoundExactly | cpp/src/runtime/latency_estimator.cpp:52-54 | the bound is the sum of its three parts, and without samples the margin |
| LatencyEstimators.BoundCoversQuantile | cpp/src/runtime/latency_estimator.cpp:36-54 | with a non-negative multiplier the bound is never below quantile plus margin |
| Profiles.ProfileRegistry.Add | cpp/src/profiles/profile_registry.cpp:5-11 | an empty or known id is refused without a change, any other is added |
| Controllers.Controller.constructor | cpp/src/runtime/controller.cpp:10-13 | a new controller is in the initial state over the shared registry |
| Controllers.Controller.MarkProfileWarmed | cpp/src/runtime/controller.cpp:15-23 | warms a known profile and gives it an estimator only if it has none |
| Controllers.Controller.EligibleProfiles | cpp/src/runtime/controller.cpp:25-40 | the result lists exactly the eligible profiles under the greater of offline and online bound |
| Controllers.Controller.SelectBest | cpp/src/runtime/controller.cpp:42-65 | the scan returns the specified best profile, none for an empty list |
| Controllers.Controller.Observe | cpp/src/runtime/controller.cpp:67-115 | the whole new state after an observation, including the stale and the unattributed one |
| Controllers.Controller.Attribute | cpp/src/runtime/controller.cpp:79-90 | a failure cools the profile down and degrades; a success restores it and feeds its estimator |
| Controllers.Controller.CountRecovery | cpp/src/runtime/controller.cpp:104-114 | the recovery streak and its confirmation |
| Controllers.Controller.EvaluateSwitch | cpp/src/runtime/controller.cpp:117-235 | decision and whole new state agree with the verdict of the specification in every branch |
| Controllers.Controller.FollowPin | cpp/src/runtime/controller.cpp:120-141 | drops an expired pin; a live pin decides exactly when its profile is eligible on its offline envelope |
| Controllers.Controller.Settle | cpp/src/runtime/controller.cpp:155-234 | startup, stable, demotion, promotion and neutral outcome of the best profile against the active one |
| Controllers.Controller.CountDemotion | cpp/src/runtime/controller.cpp:197-213 | a due demotion counts or, once confirmed, switches and degrades |
| Controllers.Controller.CountPromotion | cpp/src/runtime/controller.cpp:216-230 | a due promotion counts or, once confirmed, switches and gets ready |
| Controllers.Controller.KeepActive | cpp/src/runtime/controller.cpp:166-176 | the stable branch resets both streaks and leaves fail-closed, ready and recovering alone |
| Controllers.Controller.PinProfile | cpp/src/runtime/controller.cpp:237-248 | a pin is accepted exactly for a known profile and a duration in range, otherwise nothing changes |
| Controllers.Controller.Unpin | cpp/src/runtime/controller.cpp:250-252 | removes the pin and nothing else |
| Controllers.Controller.Recover | cpp/src/runtime/controller.cpp:254-269 | accepted exactly in fail-closed and degraded; clears hold and streak and heals the certified profiles |
| Controllers.Controller.ChangePolicy | cpp/src/runtime/controller.cpp:271-280 | an accepted policy replaces the old one and empties the miss window, a rejected one changes nothing |
| ControllerRuns.RunKeepsInv | cpp/src/runtime/controller.cpp:67-280 | in every run: fail-closed implies the hold, the hold implies fail-closed or degraded and a reason, the history chains from starting without self-steps, the active profile is registered, certified and warmed, and no document field changes |
| ControllerRuns.MovesKeepHealth | cpp/src/runtime/health_machine.cpp:13-31 | every health transition the controller makes keeps the health invariant |
| ControllerRuns.StoppingKeepsHealthExactly | cpp/src/runtime/health_machine.cpp:33-35 | stopping keeps the invariant exactly when no hold is on |
| ControllerRuns.ObservedFrame | cpp/src/runtime/controller.cpp:67-115 | an observation touches no profile but the active one and neither policy, pin nor switch times |
| SwitchRuns.BestIsMaximal | cpp/src/runtime/controller.cpp:42-65 | the chosen profile has the greatest utility, among equals the lowest 99th percentile of latency, and under escalation the greatest quality first |
| SwitchRuns.ChoiceIsFirst | cpp/src/runtime/controller.cpp:25-65 | of the eligible profiles the best one is chosen, and among equals the first in the order of the registry |
| SwitchRuns.FirstIsUnique | cpp/src/runtime/controller.cpp:42-65 | there is only one such profile |
| SwitchRuns.BetterIsStrictOrder | cpp/src/runtime/controller.cpp:47-57 | the comparison is a strict order, in which exactly the profiles with equal keys tie |
| SwitchRuns.BestKeyIgnoresOrder | cpp/src/runtime/controller.cpp:42-65 | the key of the chosen profile does not depend on the iteration order of the registry |
| SwitchRuns.AutomaticTarget | cpp/src/runtime/controller.cpp:143-234 | an automatic switch goes to a certified, warmed profile out of cooldown and above the quality floor whose offline, weighted and online bounds meet the deadline and which is at least as good as every eligible profile: by utility, then latency, under escalation by quality first |
| SwitchRuns.AnyTarget | cpp/src/runtime/controller.cpp:117-234 | every switch, pinned or not, goes to another profile that is certified, warmed, out of cooldown and above the quality floor and whose offline and weighted bounds meet the deadline |
| Scenarios.PinIgnoresOnlineBound | cpp/src/runtime/controller.cpp:120-138 | a run in which evaluation drops a profile whose measured bound exceeds the deadline and a pin switches to it |
| SwitchRuns.NoSwitchIntoCooldown | cpp/src/runtime/controller.cpp:79-83 | in every run, no switch selects a profile within two seconds of its failure unless recovery was requested or a later observation carries an earlier time |
| SwitchRuns.ActiveSinceLastSwitch | cpp/src/runtime/controller.cpp:134-135 | the activation time is always that of the last switch of any kind |
| SwitchRuns.PromotionWaitsAndImproves | cpp/src/runtime/controller.cpp:191-230 | in every run, a promotion comes at least the minimum dwell after the last switch and strictly raises utility |
| SwitchRuns.PromotionsAreBounded | cpp/src/runtime/controller.cpp:191-234 | between two other changes of the active profile there are at most registry size minus one promotions |
| SwitchRuns.StreaksAreVotes | cpp/src/runtime/controller.cpp:166-233 | in every run both streaks count the votes since the last contrary outcome; a neutral evaluation interrupts promotions but not demotions |
| SwitchRuns.SwitchesAreConfirmed | cpp/src/runtime/controller.cpp:197-230 | a due demotion or promotion takes place exactly when its confirmation count is reached |
| SwitchRuns.DemotionHappens | cpp/src/runtime/controller.cpp:143-213 | an ineligible active profile is left for an eligible one within max(1, demotion_confirmation_frames) evaluations, whatever is observed in between |
| ControllerTables.EligibleExactly | cpp/src/runtime/controller.cpp:28-37 | a profile is eligible exactly when it is certified, warmed, out of cooldown, healthy or retryable, good enough, and offline, weighted and measured bound meet the deadline |
| ControllerTables.PinRow | cpp/src/runtime/controller.cpp:124-139 | under a deciding pin the pinned profile is active and ready, and nothing else is evaluated |
| ControllerTables.NoneRow | cpp/src/runtime/controller.cpp:143-152 | without an eligible profile none is active, and the hold is raised if the policy says so |
| ControllerTables.StartupRow | cpp/src/runtime/controller.cpp:154-164 | without an active profile the first choice is activated and the controller ready |
| ControllerTables.StableRow | cpp/src/runtime/controller.cpp:166-176 | when the first choice is active, both streaks end and only starting, degraded and stopping become ready |
| ControllerTables.DemotionRow | cpp/src/runtime/controller.cpp:178-213 | a demotion is due for too many misses, for ineligibility or for ill health; it is counted and, once confirmed, goes to the first choice with the reason that applies |
| ControllerTables.PromotionRow | cpp/src/runtime/controller.cpp:215-230 | otherwise a promotion is due after the dwell time for more utility; it is counted and, once confirmed, goes to the first choice |
| ControllerTables.NeutralRow | cpp/src/runtime/controller.cpp:231-233 | otherwise only the promotion streak ends |
| ControllerTables.SomeoneIsFirst | cpp/src/runtime/controller.cpp:143-154 | there is a first choice exactly when some profile is eligible, so the cases are complete |
| ControllerTables.StaleRow | cpp/src/runtime/controller.cpp:68-71 | a stale observation is rejected if the policy says so: it raises the hold and changes nothing else |
| ControllerTables.UnattributedRow | cpp/src/runtime/controller.cpp:72-78 | an observation without a registered active profile changes nothing |
| ControllerTables.FailureRow | cpp/src/runtime/controller.cpp:79-102 | a failure makes the active profile unhealthy, counts against it, cools it down for two seconds and degrades; windows and escalation move on |
| ControllerTables.SuccessRow | cpp/src/runtime/controller.cpp:84-114 | a success makes the active profile healthy, feeds its estimator and counts towards a recovery unless it was late |
| ControllerTables.PinRequestRow | cpp/src/runtime/controller.cpp:237-248 | an accepted pin expires the given number of seconds after the request |
| ControllerTables.PinsEnd | cpp/src/runtime/controller.cpp:120-141 | a pin decides only for its profile and not after that time |
| ControllerTables.RecoveryRow | cpp/src/runtime/controller.cpp:254-269 | what an accepted recovery request clears, for the controller and for every certified profile |
| ControllerTables.RecoveryMakesEligible | cpp/src/runtime/controller.cpp:261-267 | after it only warmth, quality and the bounds decide whether a certified profile is eligible |
| ControllerTables.PolicyRow | cpp/src/runtime/policy_loader.cpp:163-175 | a policy is accepted exactly with a positive deadline and positive counts |
| ControllerTables.WarmRow | cpp/src/runtime/controller.cpp:15-23 | a new estimator has the policy's window, at least eight, quantile, multiplier and margin, and no samples |
| ControllerTables.RecordIsKept | cpp/src/runtime/controller.cpp:79-86 | in every run health, failure count and cooldown of a certified profile are those its attributed observations since the last accepted recovery add up to |
| ControllerTables.LastEntryDecidesHealth | cpp/src/runtime/controller.cpp:79-86 | in every run a certified profile is healthy exactly when the last accepted recovery or attributed observation was a recovery or a success |
| RecoveryRuns.HoldReleasedExactly | cpp/src/runtime/controller.cpp:117-269 | the hold is released exactly by a recovery request, a switch other than a demotion, or a stable evaluation in the degraded state |
| RecoveryRuns.FailClosedStays | cpp/src/runtime/controller.cpp:67-269 | fail-closed and its hold stay unless there is a recovery request, a switch or a failed inference |
| RecoveryRuns.HoldCanSlipWithoutEngine | cpp/src/runtime/controller.cpp:79-83 | from every fail-closed state with one eligible active profile, a failure and a stable evaluation release the hold without recovery or switch |
| Scenarios.HoldSlipIsReachable | cpp/src/runtime/controller.cpp:67-235 | such a state is reached from the initial one by warming, selecting and a stale frame, and the hold then slips |
| RecoveryRuns.RecoveringHasRequest | cpp/src/runtime/controller.cpp:254-259 | in every run a recovering controller has been recovering since an accepted request |
| RecoveryRuns.RecoveryConfirmedInEveryRun | cpp/src/runtime/controller.cpp:67-114 | in every run an observation makes the controller ready only out of a recovery, and under one policy exactly at the max(1, recover_confirmation_frames)-th consecutive good one since its request |
| RecoveryRuns.RecoveryConfirmedExactly | cpp/src/runtime/controller.cpp:104-114 | recovery is confirmed exactly at the max(1, recover_confirmation_frames)-th consecutive good observation since the request; a miss restarts the count, a failure leaves the recovery |
| RecoveryRuns.MissWindowIsLastCounted | cpp/src/runtime/controller.cpp:92-97 | the miss window is the last W counted observations since the last policy update, and the deadline is at risk exactly when enough of them missed |
| RecoveryRuns.EstimatorHoldsLastSamples | cpp/src/runtime/controller.cpp:79-90 | in every run the estimator of a profile holds the last samples of that profile alone |
| RuntimeEngines.RuntimeEngine.Configure | cpp/src/runtime/runtime_engine.cpp:54-160 | everything is reset first; the engine is configured exactly when the registration succeeds and is not empty |
| RuntimeEngines.RuntimeEngine.CreateSessions | cpp/src/runtime/runtime_engine.cpp:218-249 | sessions, pool entries and warm marks up to the first failure |
| RuntimeEngines.RuntimeEngine.LoadAndWarmup | cpp/src/runtime/runtime_engine.cpp:251-273 | result, state and log of a load, complete or interrupted |
| RuntimeEngines.RuntimeEngine.RunActiveInference | cpp/src/runtime/runtime_engine.cpp:303-461 | result, state and log of a frame on every path through the gate, the executor and the second evaluation |
| RuntimeEngines.RuntimeEngine.Execute | cpp/src/runtime/runtime_engine.cpp:339-393 | the executed profile is recorded before its session and document are looked up |
| RuntimeEngines.RuntimeEngine.Conclude | cpp/src/runtime/runtime_engine.cpp:394-460 | observation and second evaluation after success and failure; a hold turns a success into a refusal |
| EngineRuns.RegistrationExactly | cpp/src/runtime/runtime_engine.cpp:142-155 | registration succeeds exactly when no certified entry is unnamed or repeated, and then registers every certified entry cold and keeps every document |
| EngineRuns.ReadyAfterLoad | cpp/src/runtime/runtime_engine.cpp:218-273 | the engine is ready exactly after a successful load, and then every profile is warmed and pooled and one is active |
| EngineReports.ConfiguredExactly | cpp/src/runtime/runtime_engine.cpp:54-160 | a configuration starts cold under the given policy and succeeds exactly when the registration does and some profile is certified |
| EngineReports.NewProfileExactly | cpp/src/runtime/runtime_engine.cpp:142-152 | a registered profile has the documented numbers and no past |
| EngineReports.LoadedExactly | cpp/src/runtime/runtime_engine.cpp:251-273 | the first selection takes place only after all sessions came up, and the engine is ready exactly if it found a profile |
| EngineReports.FrameState | cpp/src/runtime/runtime_engine.cpp:303-435 | a frame that passes the gate and is executed is observed and followed by a second evaluation, any other changes the controller by its gate at most |
| EngineReports.UnreadyResult | cpp/src/runtime/runtime_engine.cpp:309-315 | an engine that is not ready reports a hold of its own |
| EngineReports.HeldBackResult | cpp/src/runtime/runtime_engine.cpp:319-337 | a frame that is held back names no profile and reports the health at the gate |
| EngineReports.RefusedResult | cpp/src/runtime/runtime_engine.cpp:339-393 | a frame that fails before its execution names the active profile and reports the health at the gate |
| EngineReports.ExecutedResult | cpp/src/runtime/runtime_engine.cpp:394-460 | an executed frame reports the final health; it is ok exactly when it succeeded and no hold is on, and a success names the next profile |
| EngineReports.FailedFrame | cpp/src/runtime/runtime_engine.cpp:395-402 | after a failed inference the executed profile is unhealthy, has one more failure and cools down until two seconds after the end; no estimator changes |
| EngineReports.SuccessfulFrame | cpp/src/runtime/runtime_engine.cpp:416-425 | after a success the executed profile is healthy, its newest sample is the latency, the newest miss flag says whether that was late, and escalation follows the hint or else the model's confidence |
| EngineReports.StaleFrameRaises | cpp/src/runtime/runtime_engine.cpp:416-425 | a rejected frame changes no profile and no estimator and raises the hold |
| EngineRuns.RunKeepsOk | cpp/src/runtime/runtime_engine.cpp:54-461 | in every engine run each warmed profile has a session and an estimator and each registered one a document |
| EngineRuns.FrameProvenance | cpp/src/runtime/runtime_engine.cpp:339-439 | session and document lookups never fail, and an ok frame names the profile that executed it, with no hold and no error |
| EngineRuns.RunStaysClosed | cpp/src/runtime/runtime_engine.cpp:303-461 | in every engine run, as long as nothing lifts a raised hold the controller stays fail-closed and holding |
| EngineRuns.NoInferenceLoggedUnderHold | cpp/src/runtime/runtime_engine.cpp:317-337 | in the log of every engine run, between a raised hold and the next executed inference there is a recovery, a switch or a new configuration |
| EngineRuns.EvaluationIsLogged | cpp/src/runtime/controller.cpp:117-235 | an evaluation logs a switch exactly when it decides one, and a raised hold whenever it turns the hold on |
| EngineRuns.ObservationIsLogged | cpp/src/runtime/controller.cpp:67-71 | an observation logs a raised hold whenever it turns the hold on |
| EngineRuns.ExecutionIsLogged | cpp/src/runtime/runtime_engine.cpp:339-439 | a frame logs one execution, of the profile its result names, exactly when it gets past the lookups and its preprocess document; every ok frame does |
| EngineRuns.LiftIsLogged | cpp/src/runtime/runtime_engine.cpp:54-461 | an operation logs a lift exactly when it is an accepted recovery request, a decision to switch or a configuration |
| EngineRuns.ShutStays | cpp/src/runtime/runtime_engine.cpp:303-337 | without a lift a fail-closed engine executes nothing and stays fail-closed |
| EngineRuns.NoInferenceWhileShut | cpp/src/runtime/runtime_engine.cpp:303-337 | in every engine run, between an operation that leaves the engine fail-closed and the next executed inference there is an accepted recovery, a decision to switch or a configuration |
| EngineRuns.RaisedMeansShut | cpp/src/runtime/runtime_engine.cpp:303-461 | an operation that turns the hold on leaves the engine fail-closed, unless its last evaluation has already switched again |
| EngineRuns.NoInferenceUnderHold | cpp/src/runtime/runtime_engine.cpp:303-461 | in every engine run, if the hold is on after an operation and a later one executes an inference, there was an accepted recovery, a decision to switch or a configuration since the hold was turned on |
| EngineRuns.HeldFrameInfersExactly | cpp/src/runtime/runtime_engine.cpp:317-337 | a holding engine executes exactly the frames whose gate releases the hold, and without a switch only in the degraded state |
| Scenarios.DemotedHoldLetsFramesThrough | cpp/src/runtime/controller.cpp:166-213 | an engine run in which a demotion leaves the hold on and the next frame executes without any lift in between |
| Detections.IouIsAreaRatio | cpp/src/adapters/yolo_v8_adapter.cpp:8-16 | the ratio is the area of the box of all common points over the area the two boxes cover together |
| Detections.IouOfDisjoint | cpp/src/adapters/yolo_v8_adapter.cpp:8-16 | boxes without a common point have ratio zero |
| Detections.IouOfNothing | cpp/src/adapters/yolo_v8_adapter.cpp:15-15 | boxes that cover no area have ratio zero |
| Detections.IouSymmetric | cpp/src/adapters/yolo_v8_adapter.cpp:8-16 | the overlap ratio is symmetric |
| Detections.SurvivorsAreGreedy | cpp/src/adapters/yolo_v8_adapter.cpp:22-32 | deciding box by box from left to right equals the recursive greedy selection |
| Detections.KeptBoxesDisjoint | cpp/src/adapters/yolo_v8_adapter.cpp:22-32 | of two kept boxes of one class, the area of the common part is at most the threshold's share of the area covered together |
| Detections.KeptOrSuppressed | cpp/src/adapters/yolo_v8_adapter.cpp:22-32 | each box is kept exactly when no box of its class kept before it has a ratio to it above the threshold |
| Detections.LimitedIsPrefix | cpp/src/adapters/yolo_v8_adapter.cpp:25-27 | a limit keeps a prefix of exactly that length, at least one, and a negative one keeps all |
| Detections.ClassesIndependent | cpp/src/adapters/yolo_v8_adapter.cpp:22-32 | without a limit, what is kept of a class depends on that class alone |
| Detections.Nms | cpp/src/adapters/yolo_v8_adapter.cpp:17-34 | the flag-array loop returns the greedy selection of a score-sorted permutation, cut at max(1, max_det) |
| Detections.NmsSorted | cpp/src/adapters/yolo_v8_adapter.cpp:20-33 | the loop with its early exit equals the limited selection of the sorted list |
| Detections.MarkSuppressed | cpp/src/adapters/yolo_v8_adapter.cpp:28-31 | the inner loop flags exactly the later boxes that the kept one suppresses |
| Stretch.IouInUnitInterval | cpp/src/adapters/yolo_v8_adapter.cpp:8-16 | the overlap ratio of boxes of non-negative size lies in [0, 1] |
| Stretch.IouIgnoresScale | cpp/src/adapters/yolo_v8_adapter.cpp:8-16 | the overlap ratio does not change under positive scaling along each axis |
| Stretch.SuppressionCommutesWithUnscaling | cpp/src/runtime/profile_executor.cpp:263-274 | for all sizes and boxes, suppressing and then undoing the stretch keeps the same boxes as the other way round |
| Stretch.SuppressionCommutesWithMapping | cpp/src/runtime/profile_executor.cpp:263-281 | the same with the final clamp, for boxes inside the adapter rectangle |
| Stretch.MappedInsideSource | cpp/src/runtime/profile_executor.cpp:266-281 | such boxes are mapped into the source image and the final clamp is the identity |
| Stretch.MappedInsideSourceExactly | cpp/src/runtime/profile_executor.cpp:266-281 | all boxes of an adapter rectangle are mapped into the source image, and left alone by the final clamp, exactly when it does not exceed the preprocessing size |
| Stretch.LeavesSource | cpp/src/runtime/profile_executor.cpp:266-281 | otherwise a box of the rectangle that ends outside the source image even after the final clamp |
| Stretch.StretchScalePositive | cpp/src/image/preprocess_config.cpp:161-178 | the scale factors are positive and the padding is zero for every pair of sizes |
| Stretch.MapDetections | cpp/src/runtime/profile_executor.cpp:266-281 | the loop maps every detection, in order, and changes neither class nor score |
| Stretch.ClampBoxInside | cpp/src/adapters/yolo_v8_adapter.cpp:36-49 | a clamped box lies in the rectangle, and a box that did is unchanged |
| Stretch.ClampBoxVanishes | cpp/src/adapters/yolo_v8_adapter.cpp:36-49 | a box that misses the rectangle is clamped to one without area |
| Stretch.ClampBoxIsIntersection | cpp/src/adapters/yolo_v8_adapter.cpp:36-49 | clamping a box that meets the rectangle gives exactly their intersection |
| YoloAdapter.Postprocess | cpp/src/adapters/yolo_v8_adapter.cpp:51-129 | the error cases by shape; otherwise the suppression of the candidates, and the best candidate score as confidence |
| YoloAdapter.CollectCandidates | cpp/src/adapters/yolo_v8_adapter.cpp:89-123 | the anchor loop collects the decoded boxes of exactly the anchors that reach the threshold |
| YoloAdapter.BestClassIsFirstMaximum | cpp/src/adapters/yolo_v8_adapter.cpp:90-98 | the class is the first with the greatest positive score, class 0 with score 0 if there is none |
| YoloAdapter.CandidatesInside | cpp/src/adapters/yolo_v8_adapter.cpp:87-123 | every candidate lies in the model rectangle and reaches the threshold |
| YoloAdapter.DetectionsMappedInside | cpp/src/runtime/profile_executor.cpp:263-281 | if the adapter's rectangle does not exceed the preprocessing size, every detection the adapter returns is mapped into the source image and the final clamp is the identity |
| YoloAdapter.BoxKeepsCentre | cpp/src/adapters/yolo_v8_adapter.cpp:101-117 | a box that needs no clamping keeps the centre and size the model emitted, as pixels or as shares of the model's input |
| YoloAdapter.DecodedExactly | cpp/src/adapters/yolo_v8_adapter.cpp:90-119 | a detection takes its box from the first four channels of its anchor and its class from the others |
| YoloAdapter.CandidatesExactly | cpp/src/adapters/yolo_v8_adapter.cpp:89-123 | exactly the anchors that reach the threshold become candidates, in their order |
| YoloAdapter.AtIsCell | cpp/src/adapters/yolo_v8_adapter.cpp:84-86 | where a channel of an anchor lies in the data, in both layouts |
| YoloAdapter.LayoutExactly | cpp/src/adapters/yolo_v8_adapter.cpp:52-81 | layout or error of every shape |
| YoloAdapter.IndexInverts | cpp/src/adapters/yolo_v8_adapter.cpp:84-86 | channel and anchor can be read back from the cell index in both layouts |
| YoloAdapter.LayoutsAgree | cpp/src/adapters/yolo_v8_adapter.cpp:84-123 | a tensor and its transpose, each read in its layout, give the same candidates |
| YoloAdapter.LayoutRecognised | cpp/src/adapters/yolo_v8_adapter.cpp:56-74 | channels first is always recognised, channels last exactly when the number of anchors differs from the number of channels |
| Images.OffsetInBounds | cpp/src/image/preprocessor_scalar.cpp:20-70 | no sample of a valid view reads outside stride times height |
| Images.SampleIsConvex | cpp/src/image/preprocessor_scalar.cpp:72-104 | every channel of a sample lies between the least and greatest of the four pixels around it |
| Images.SampleIsByteRange | cpp/src/image/preprocessor_scalar.cpp:72-104 | every sample lies in [0, 255] |
| Images.SampleOfGradient | cpp/src/image/preprocessor_scalar.cpp:72-104 | a linear gradient is sampled exactly at the clamped position |
| Images.SampleOfSurface | cpp/src/image/preprocessor_scalar.cpp:72-104 | so is every surface that is linear along each axis, with a product term, which determines the four weights |
| Images.PixelIsStored | cpp/src/image/preprocessor_scalar.cpp:20-70 | which bytes of the buffer are the channels of a pixel, for every format and colour handling |
| Images.SameSizeIsIdentity | cpp/src/image/preprocessor_scalar.cpp:131-140 | with equal sizes sampling returns the pixel itself |
| Images.BilinearAgrees | cpp/src/image/preprocessor_scalar.cpp:20-104 | two encodings of one picture are sampled alike when converted to RGB |
| Preprocess.PreprocessScalar | cpp/src/image/preprocessor_scalar.cpp:108-161 | the first failing check is reported, the one of the tensor size included; otherwise the tensor is filled and each cell is written once |
| Preprocess.PreprocessNeon | cpp/src/image/preprocessor_neon.cpp:115-225 | the blocked form reports the same errors except for the tensor size, fills exactly the same tensor and writes each cell once |
| Preprocess.TensorExactly | cpp/src/image/preprocessor_scalar.cpp:131-155 | every cell of the tensor both forms fill: the bilinear sample at the pixel's centre, red and blue exchanged if asked for, scaled, centred and divided |
| Preprocess.ChecksExactly | cpp/src/image/preprocessor_scalar.cpp:110-128 | which error each form reports |
| Preprocess.BlockedRow | cpp/src/image/preprocessor_neon.cpp:154-195 | the blocks finish the greatest multiple of four pixels of a row |
| Preprocess.ScalarRow | cpp/src/image/preprocessor_neon.cpp:197-219 | the tail loop finishes the row from wherever the blocks stopped |
| Preprocess.BlockPixels | cpp/src/image/preprocessor_neon.cpp:156-176 | the four lanes are the four target pixels |
| Preprocess.NormaliseLanes | cpp/src/image/preprocessor_neon.cpp:174-176 | multiplying by the inverse deviation equals the scalar division in every lane |
| Preprocess.WriteBlock | cpp/src/image/preprocessor_neon.cpp:178-194 | a block writes its twelve cells once each and no other cell |
| Preprocess.CellsCorrespond | cpp/src/image/preprocessor_scalar.cpp:146-155 | pixels and channels correspond one to one to the cells of the tensor in both layouts |
| Preprocess.LayoutsAreTransposed | cpp/src/image/preprocessor_scalar.cpp:146-155 | the NHWC tensor is the transpose of the NCHW tensor |
| Preprocess.EncodingsAgree | cpp/src/image/preprocessor_scalar.cpp:20-157 | under RGB conversion the tensor depends on the picture, not on format, stride, padding or alpha |
| Preprocess.SameSizeTensor | cpp/src/image/preprocessor_scalar.cpp:131-145 | with equal sizes the tensor holds the normalised source pixels |
| TelemetryHubs.TelemetryHub.Publish | python/perceptshift_api/src/perceptshift_api/telemetry.py:70-108 | the event gets the next sequence number, reaches exactly the subscribed clients, and carries the total drop count; no client is removed |
| TelemetryHubs.TelemetryHub.FanOut | python/perceptshift_api/src/perceptshift_api/telemetry.py:88-107 | every subscribed client is served once whatever the order, drops are summed up, and the list of stale clients stays empty |
| TelemetryHubs.TelemetryHub.Deliver | python/perceptshift_api/src/perceptshift_api/telemetry.py:90-105 | a full queue loses its oldest event and is never still full after that |
| TelemetryHubs.TelemetryHub.Subscribe | python/perceptshift_api/src/perceptshift_api/telemetry.py:110-120 | refused exactly at the client limit, otherwise a new client with an empty queue |
| TelemetryHubs.TelemetryHub.Unsubscribe | python/perceptshift_api/src/perceptshift_api/telemetry.py:122-124 | removes the client and keeps the account of what it received |
| TelemetryHubs.TelemetryHub.Consume | python/perceptshift_api/src/perceptshift_api/telemetry.py:41-45 | a client takes the oldest event of its queue and the account stays balanced |
| TelemetryHubs.TelemetryHub.Recent | python/perceptshift_api/src/perceptshift_api/telemetry.py:66-68 | a positive limit gives the last published events up to the cache size, zero the whole cache |
| TelemetryHubs.ServedExactly | python/perceptshift_api/src/perceptshift_api/telemetry.py:90-105 | only a queue at its bound loses an event, the oldest, and every queue gets the new one |
| TelemetryHubs.ClientAccount | python/perceptshift_api/src/perceptshift_api/telemetry.py:70-124 | in every interleaving, published for a client = consumed + dropped + queued, and its queue is the latest part of what was published for it, without holes |
| TelemetryHubs.UnboundedQueuesKeepAll | python/perceptshift_api/src/perceptshift_api/telemetry.py:89-105 | without a positive bound nothing is ever dropped and a queue holds all that was published and not taken |
| TelemetryHubs.CacheIsLatest | python/perceptshift_api/src/perceptshift_api/telemetry.py:87-87 | the cache holds the last events with consecutive numbers up to the newest |
| Pareto.IsDominating | python/perceptshift_forge/src/perceptshift_forge/certification/__init__.py:301-328 | the two flag loops decide dominance, with missing objectives treated by kind |
| Pareto.ParetoSelect | python/perceptshift_forge/src/perceptshift_forge/certification/__init__.py:255-275 | the nested loops return the undominated certified rows sorted by id |
| Pareto.DominanceIrreflexive | python/perceptshift_forge/src/perceptshift_forge/certification/__init__.py:301-328 | no row dominates itself |
| Pareto.DominanceTransitive | python/perceptshift_forge/src/perceptshift_forge/certification/__init__.py:301-328 | with all minimised objectives present, dominance is transitive |
| Pareto.SelectedExactly | python/perceptshift_forge/src/perceptshift_forge/certification/__init__.py:255-275 | a row is selected exactly when it is certified and no certified row dominates it, and the selection is in alphabetical order of the ids |
| Pareto.TextLeqIsAlphabetical | python/perceptshift_forge/src/perceptshift_forge/certification/__init__.py:274-274 | one text comes before another as a prefix or by the smaller character at the first difference |
| Pareto.SelectedDoNotDominate | python/perceptshift_forge/src/perceptshift_forge/certification/__init__.py:255-275 | no selected row dominates another |
| Pareto.SelectionCovers | python/perceptshift_forge/src/perceptshift_forge/certification/__init__.py:255-275 | when the present objectives are compatible, every certified row is selected or dominated by a selected one |
| Pareto.PresentIsCompatible | python/perceptshift_forge/src/perceptshift_forge/certification/__init__.py:319-327 | objectives are compatible when all minimised ones are present |
| Pareto.HarmlessIsTransitive | python/perceptshift_forge/src/perceptshift_forge/certification/__init__.py:301-328 | the condition on the objectives of three rows makes dominance transitive on them |
| Pareto.CoverageExactly | python/perceptshift_forge/src/perceptshift_forge/certification/__init__.py:255-328 | every certified row is covered for all values of the objectives present exactly when these are compatible; for any maximised and minimised objectives |
| Pareto.SelectionIdempotent | python/perceptshift_forge/src/perceptshift_forge/certification/__init__.py:255-275 | selecting from the selection changes nothing |
| Pareto.SelectionIgnoresOrder | python/perceptshift_forge/src/perceptshift_forge/certification/__init__.py:255-275 | with distinct ids the result does not depend on the input order |
| Pareto.MissingObjectivesCanEmptyTheSelection | python/perceptshift_forge/src/perceptshift_forge/certification/__init__.py:319-323 | four certified rows with missing objectives that dominate each other in a circle |
| Codecs.DecodeBase64 | cpp/src/bundle/bundle_loader.cpp:84-116 | the loop over the 32-bit buffer computes the recursive decoding |
| Codecs.Base64RoundTrip | cpp/src/bundle/bundle_loader.cpp:84-116 | decoding inverts the encoding of section 4 of RFC 4648 for every byte sequence, with blanks anywhere and with or without padding |
| Codecs.DecodeEncoded | cpp/src/bundle/bundle_loader.cpp:95-114 | the same for any leftover content of the bit buffer |
| Codecs.BlanksIgnored | cpp/src/bundle/bundle_loader.cpp:98-100 | blanks make no difference anywhere |
| Codecs.Base64FailsExactly | cpp/src/bundle/bundle_loader.cpp:101-107 | decoding fails exactly when a foreign character stands before the first padding sign |
| Codecs.HighBytesReadAsA | cpp/src/bundle/bundle_loader.cpp:85-92 | characters above 127 decode like the letter A |
| Codecs.AlphabetExactly | cpp/src/bundle/bundle_loader.cpp:85-107 | which characters are blanks, which is the padding sign and which are foreign |
| Codecs.SymbolsInOrder | cpp/src/bundle/bundle_loader.cpp:85-92 | the alphabet of section 4 of RFC 4648 |
| Codecs.DigitsExactly | cpp/src/crypto/digest.cpp:89-97 | the digits of both letter cases and their values |
| Codecs.DecodeHexBytes | cpp/src/bundle/bundle_loader.cpp:55-82 | length and character errors exactly under their conditions, otherwise two digits a byte |
| Codecs.FromHex | cpp/src/crypto/digest.cpp:84-107 | the same for exactly 64 characters |
| Codecs.ToHex | cpp/src/crypto/digest.cpp:75-82 | the loop writes the lower-case encoding of section 8 of RFC 4648 |
| Codecs.HexRoundTrip | cpp/src/crypto/digest.cpp:75-107 | an encoding in any letter case is accepted by the decoders, which return the encoded bytes |
| Codecs.HexTextRoundTrip | cpp/src/crypto/digest.cpp:75-107 | encoding what was decoded gives the text back in lower case |
| Shapes.ResolveShape | cpp/src/runtime/profile_executor.cpp:20-68 | outside the fill mode, success exactly for resolvable shapes, and the result is positive, keeps every fixed dimension and multiplies to the element count; the fill mode puts ones |
| Shapes.CompletionIsUnique | cpp/src/runtime/profile_executor.cpp:57-67 | with one open dimension there is at most one such shape |
| Shapes.ResolvableExactly | cpp/src/runtime/profile_executor.cpp:40-67 | with at most one open dimension and something fixed, a shape is found exactly when one exists |
| Shapes.CppShapeIsResolution | cpp/src/runtime/profile_executor.cpp:40-67 | the shape as a function exists exactly for resolvable models and completes them |
| Shapes.MaybeReshape | python/perceptshift_forge/src/perceptshift_forge/datasets/stream.py:432-473 | the loops compute the resolution in which every non-positive dimension counts as open |
| Shapes.TwinsAgreeExactly | python/perceptshift_forge/src/perceptshift_forge/datasets/stream.py:432-473 | both resolvers agree except exactly when one dimension is not positive, the rest divides the count, and that dimension is zero or alone or the tensor is empty |
| Shapes.TwinsDisagree | python/perceptshift_forge/src/perceptshift_forge/datasets/stream.py:457-473 | in that family Python completes the shape and C++ rejects it |
| Shapes.ByteSizeForShape | cpp/src/inference/onnx_session.cpp:86-112 | succeeds exactly when all dimensions are positive and the exact byte count fits the machine word, with that count |
| Shapes.BuildRequest | cpp/src/runtime/profile_executor.cpp:113-238 | every request declares positive dimensions that multiply to exactly its buffer, and each kind of input is refused exactly under its condition |
| Shapes.CheckRequest | cpp/src/inference/onnx_session.cpp:146-189 | a request passes exactly when rank, fixed dimensions and byte size agree |
| Shapes.Submit | cpp/src/runtime/profile_executor.cpp:113-240 | no built request that fits the machine word is refused for its byte size, and tensor and smoke requests pass all checks |
| RateLimiters.MutationRateLimiter.constructor | python/perceptshift_api/src/perceptshift_api/auth.py:36-39 | the limit is at least one and no call has been made |
| RateLimiters.MutationRateLimiter.Check | python/perceptshift_api/src/perceptshift_api/auth.py:41-56 | with a clock that never goes back, a call is refused exactly when the limit was admitted in the minute before it, and its bucket then holds exactly those admissions |
| RateLimiters.Trim | python/perceptshift_api/src/perceptshift_api/auth.py:46-47 | the loop pops exactly the leading admissions over a minute old |
| RateLimiters.AdmissionsAreSpaced | python/perceptshift_api/src/perceptshift_api/auth.py:41-56 | an admission comes over a minute after the one `limit` places before it |
| RateLimiters.EveryMinuteIsBounded | python/perceptshift_api/src/perceptshift_api/auth.py:41-56 | for every nondecreasing clock and every sequence of calls, at most the limit is admitted per key in any closed interval of a minute |
| RateLimiters.KeysIndependent | python/perceptshift_api/src/perceptshift_api/auth.py:45-45 | what happens to one key does not depend on the calls of the others |

## Left out

- Floating point: latencies, scores, coordinates and tensor values are real numbers without rounding, infinities or NaN.
- Machine integers: streaks, times and products are unbounded, except in `Shapes.ByteSizeForShape` and the bit buffer of `Codecs.DecodeBase64`; so the unchecked products of shape resolution and of a tensor's width and height do not wrap.
- Controllers.Controller.constructor: does not model that reserving a miss window of negative length throws; the same holds for Controllers.Controller.ChangePolicy and for a negative number of latency samples.
- LatencyEstimators.LatencyEstimator.QuantileMs: a position at or below -1 is undefined in C++ and is read as index zero here; the properties are for quantiles in [0, 1].
- Controllers.Controller.EligibleProfiles: the hash map is iterated in insertion order; SwitchRuns.BestKeyIgnoresOrder covers the other orders.
- Controllers.Controller.Observe: estimators live by value in the map, so the class LatencyEstimators.LatencyEstimator stands beside the controller and both use the same functions.
- References: profiles are addressed by id, so aliasing between the registry and the lists the controller passes around is not modelled.
- Reason and evidence strings are enumerations.
- RuntimeEngines.RuntimeEngine.Configure: loading, verifying and parsing a bundle or policy is one given outcome, and adapters are not part of the engine model.
- RuntimeEngines.RuntimeEngine.LoadAndWarmup: how many sessions come up before the first failure is a given number.
- RuntimeEngines.RuntimeEngine.RunActiveInference: inference, clocks and preprocess documents are given values, an unsupported input kind is treated like an invalid preprocess document, and timings and telemetry fields are omitted; the executor reports its failures as results today, so the branch for a refusing executor is never taken.
- RuntimeEngines.RuntimeEngine.Execute: stands for a part of one C++ function, as do Controllers.Controller.FollowPin, Controllers.Controller.Settle and the other methods split off for readability.
- Detections.Nms: the library sort may order equal scores either way; the result is for some sorted permutation.
- YoloAdapter.Postprocess: labels are omitted, the buffer is required to cover the declared shape as the session's tensors do, and a null buffer is not modelled.
- Stretch.MapDetections: applies to image input; tensor and smoke input carry no transform and are not mapped.
- Preprocess.PreprocessNeon: bilinear is the only interpolation there is, so its check never fails, and the stretch resize is not a parameter; the executor's payload check provides the requirement that the buffer holds all rows.
- TelemetryHubs.TelemetryHub.Publish: runs as one step because the lock is held and nothing inside waits; timestamps and trace ids are omitted.
- TelemetryHubs.TelemetryHub.Subscribe: assumes that a new random identifier was never used before.
- Pareto.ParetoSelect: rows are compared by position instead of identity, and an objective that is not a number, which makes the original raise, does not occur.
- Shapes.MaybeReshape: a dimension that is not an integer counts as -1; reshaping itself is the array library's.
- Shapes.BuildRequest: pixel formats and image checks come before it, and a fallback shape for images may still be refused for its rank or its fixed dimensions.
- Shapes.CheckRequest: one float input; names, element types and null buffers are not modelled.
- RateLimiters.MutationRateLimiter.Check: the clock is a parameter and a refusal is a result instead of an exception.
- Threads: each public call is one step; the locks of the session pool and of the registry are not modelled.
- ONNX Runtime, OpenSSL, the file system, JSON, the ROS node and bridge, the HTTP routers, the database, the command line and the web console.
- The Forge pipeline: its steps are file operations and subprocesses, and on resume it rebuilds the lineage of quantized models differently, so that resuming equals an uninterrupted run is not what it promises.
- The certification gates and the evidence builder: each is settled by reading one branch.
- Bounded ring, latest-frame queue, session pool and registry as subjects of their own; softmax, bootstrap intervals, mean average precision and cosine similarity.
