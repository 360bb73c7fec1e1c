/** What a frame reports to its caller and to the controller, and what set-up registers, in terms of
    the frame's input and the fields of the state. */
module EngineReports {
  import opened Common
  import opened Profiles
  import opened HealthMachines
  import opened LatencyEstimators
  import opened ControllerModel
  import opened ControllerRuns
  import opened ControllerTables
  import opened EngineModel
  import opened EngineRuns

  /** The state after the evaluation at the gate. */
  ghost function Gate(e: Engine, f: FrameInput): State
    requires e.controller.Some?
  {
    Evaluated(e.controller.value, f.nowNs)
  }

  /** The engine is ready, the gate lets the frame through, and its preprocess document is valid. */
  ghost predicate Passes(e: Engine, f: FrameInput) {
    && e.ready && e.controller.Some? && f.preprocessOk
    && Gate(e, f).active.Some? && !Gate(e, f).health.hold
  }

  /** What the controller is told: the time after the execution, whether it succeeded, its latency,
      and the confidence, where a hint of the request comes before the model's own. */
  ghost function Told(f: FrameInput): FrameObservation
    requires !f.outcome.Refused?
  {
    FrameObservation(
      f.doneNs,
      if f.outcome.Succeeded? then f.outcome.executorMs else 0.0,
      f.outcome.Succeeded?,
      if f.outcome.Failed? then -1.0 else if f.confidenceHint >= 0.0 then f.confidenceHint else f.outcome.confidence,
      f.sourceStale)
  }

  lemma ToldIsObserved(f: FrameInput)
    requires !f.outcome.Refused?
    ensures ObservationOf(f) == Told(f)
  {
  }

  /** The engine after a frame: after the gate's evaluation, an executed frame is observed and the
      controller evaluated once more; nothing else of the engine changes. */
  lemma FrameState(e: Engine, f: FrameInput)
    requires EngineOk(e)
    ensures Framed(e, f).engine
         == if !e.ready || e.controller.None? then e
            else if Passes(e, f) && !f.outcome.Refused?
            then e.(controller := Some(Evaluated(ObservedState(Gate(e, f), Told(f)), f.doneNs)))
            else e.(controller := Some(Gate(e, f)))
  {
    hide Evaluated, ObservedState, Decision, EvaluationEvents, ObservationEvents, ObservationOf, Told, Inv, Backed;
    if e.ready && e.controller.Some? {
      EvaluatedKeepsOk(e.controller.value, f.nowNs, e.pool, e.docs);
      LookupsSucceed(Gate(e, f), e.pool, e.docs);
      if !f.outcome.Refused? {
        ToldIsObserved(f);
      }
    }
  }

  ghost function HealthIn(r: FrameResult): (HealthState, bool, ReasonCode) {
    (r.healthState, r.hold, r.holdReason)
  }

  ghost function HealthAt(s: State): (HealthState, bool, ReasonCode) {
    (s.health.state, s.health.hold, s.health.holdReason)
  }

  lemma UnreadyResult(e: Engine, f: FrameInput)
    requires !e.ready || e.controller.None?
    ensures Framed(e, f).result
         == FrameResult(false, true, EngineNotReady, FailClosed, "", "", "", None, NotReady)
  {
  }

  /** A frame that the gate holds back executes nothing and reports the health at the gate. */
  lemma HeldBackResult(e: Engine, f: FrameInput)
    requires e.ready && e.controller.Some? && (Gate(e, f).active.None? || Gate(e, f).health.hold)
    ensures var r := Framed(e, f).result;
            && HealthIn(r) == HealthAt(Gate(e, f)) && !r.ok && r.error == HeldBack
            && r.executedProfileId == "" && r.activeProfileId == "" && r.nextActiveProfileId == ""
            && r.lastSwitchReason == Some(Decision(e.controller.value, f.nowNs).reason)
  {
    hide Evaluated, Decision, EvaluationEvents, Attempted;
  }

  /** A frame that fails before or in the executor reports the health at the gate. */
  lemma RefusedResult(e: Engine, f: FrameInput)
    requires EngineOk(e) && e.ready && Gate(e, f).active.Some? && !Gate(e, f).health.hold
    requires !f.preprocessOk || f.outcome.Refused?
    ensures var r := Framed(e, f).result;
            && HealthIn(r) == HealthAt(Gate(e, f)) && !r.ok
            && r.error == (if !f.preprocessOk then PreprocessInvalid else ExecutorRefused)
            && r.executedProfileId == r.activeProfileId == r.nextActiveProfileId == Gate(e, f).active.value
            && r.lastSwitchReason == Some(Decision(e.controller.value, f.nowNs).reason)
  {
    hide Evaluated, ObservedState, Decision, EvaluationEvents, ObservationEvents, Inv, Backed;
    EvaluatedKeepsOk(e.controller.value, f.nowNs, e.pool, e.docs);
    LookupsSucceed(Gate(e, f), e.pool, e.docs);
  }

  /** An executed frame is attributed to the profile at the gate and reports the final health. It is
      ok exactly when the execution succeeded and no hold is on. A success also reports the profile
      that comes next and the last decision's reason. */
  lemma ExecutedResult(e: Engine, f: FrameInput)
    requires EngineOk(e) && Passes(e, f) && !f.outcome.Refused?
    ensures var r, id := Framed(e, f).result, Gate(e, f).active.value;
            var u := ObservedState(Gate(e, f), Told(f));
            var v := Framed(e, f).engine.controller;
            && v == Some(Evaluated(u, f.doneNs)) && HealthIn(r) == HealthAt(v.value)
            && r.executedProfileId == r.activeProfileId == id
            && (r.ok <==> f.outcome.Succeeded? && !v.value.health.hold)
            && r.error == (if f.outcome.Failed? then ExecutionFailed
                           else if v.value.health.hold then HeldAfterwards else NoError)
            && r.nextActiveProfileId == (if f.outcome.Succeeded? && v.value.active.Some? then v.value.active.value else id)
            && r.lastSwitchReason == Some(if f.outcome.Succeeded? then Decision(u, f.doneNs).reason
                                          else Decision(e.controller.value, f.nowNs).reason)
  {
    hide Evaluated, ObservedState, Decision, EvaluationEvents, ObservationEvents, ObservationOf, Told, Inv, Backed;
    EvaluatedKeepsOk(e.controller.value, f.nowNs, e.pool, e.docs);
    LookupsSucceed(Gate(e, f), e.pool, e.docs);
    ToldIsObserved(f);
  }

  // What an execution does to the controller

  /** The controller before and after a frame, and the executed profile in both. */
  lemma ExecutionReaches(e: Engine, f: FrameInput)
    requires EngineOk(e) && Passes(e, f) && !f.outcome.Refused?
    ensures var s, t := e.controller.value, Gate(e, f);
            var v := Framed(e, f).engine.controller;
            && v.Some? && v.value == Evaluated(ObservedState(t, Told(f)), f.doneNs)
            && t.active.value in s.registry.profiles && t.active.value in t.estimators
            && t.estimators[t.active.value].window >= 8
            && t.registry == s.registry && t.estimators == s.estimators && t.policy == s.policy
            && t.missWindow == s.missWindow && t.escalation == s.escalation
    ensures var u, v := ObservedState(Gate(e, f), Told(f)), Framed(e, f).engine.controller.value;
            && v.registry == u.registry && v.estimators == u.estimators
            && v.missWindow == u.missWindow && v.escalation == u.escalation
  {
    hide Evaluated, ObservedState, Told, Decision, Inv;
    FrameState(e, f);
    EvaluatedFrame(e.controller.value, f.nowNs);
    EvaluatedFrame(ObservedState(Gate(e, f), Told(f)), f.doneNs);
    EvaluatedKeepsOk(e.controller.value, f.nowNs, e.pool, e.docs);
    ActiveIsMeasured(Gate(e, f), e.pool, e.docs);
  }

  lemma ActiveIsMeasured(s: State, pool: set<string>, docs: set<string>)
    requires Inv(s) && Backed(s, pool, docs)
    ensures s.active.Some? ==>
              s.active.value in s.registry.profiles && s.active.value in s.estimators && s.estimators[s.active.value].window >= 8
  {
  }

  /** A failed inference takes the executed profile out of service for two seconds, counts against
      it, and is measured by no estimator. */
  lemma FailedFrame(e: Engine, f: FrameInput)
    requires EngineOk(e) && Passes(e, f) && f.outcome.Failed?
    requires !(f.sourceStale && e.controller.value.policy.failClosedOnStaleInput)
    ensures var s, v := e.controller.value, Framed(e, f).engine.controller;
            var id := Framed(e, f).result.executedProfileId;
            && v.Some? && id in s.registry.profiles
            && v.value.registry.profiles
               == s.registry.profiles[id := s.registry.profiles[id].(
                    healthy := false,
                    failureCount := s.registry.profiles[id].failureCount + 1,
                    cooldownUntilNs := f.doneNs + 2_000_000_000)]
            && v.value.estimators == s.estimators
  {
    hide Framed, Evaluated, ObservedState, Told, Decision, Inv, Backed, MissesAfter, EscalatesAfter;
    ExecutionReaches(e, f);
    ExecutedResult(e, f);
    ToldOfFailure(f);
    FailureRow(Gate(e, f), Told(f), Gate(e, f).active.value);
  }

  lemma SamplesEnd(x: Estimator, obs: FrameObservation)
    requires x.window >= 8
    ensures var w := SamplesAfter(x, obs); w != [] && w[|w| - 1] == obs.latencyMs
  {
  }

  lemma ToldOfFailure(f: FrameInput)
    requires f.outcome.Failed?
    ensures !Told(f).inferenceOk && Told(f).nowNs == f.doneNs && Told(f).sourceStale == f.sourceStale
  {
  }

  lemma ToldOfSuccess(f: FrameInput)
    requires f.outcome.Succeeded?
    ensures Told(f).inferenceOk && Told(f).latencyMs == f.outcome.executorMs && Told(f).sourceStale == f.sourceStale
    ensures Told(f).confidenceSignal == if f.confidenceHint >= 0.0 then f.confidenceHint else f.outcome.confidence
  {
  }

  /** A successful inference restores the executed profile, adds its latency to the profile's
      estimator and its lateness to the miss window, and escalates by the hint or else by the
      model's confidence. */
  lemma SuccessfulFrame(e: Engine, f: FrameInput)
    requires EngineOk(e) && Passes(e, f) && f.outcome.Succeeded?
    requires !(f.sourceStale && e.controller.value.policy.failClosedOnStaleInput)
    ensures var s, v := e.controller.value, Framed(e, f).engine.controller;
            var id, ms := Framed(e, f).result.executedProfileId, f.outcome.executorMs;
            var signal := if f.confidenceHint >= 0.0 then f.confidenceHint else f.outcome.confidence;
            && v.Some? && id in s.registry.profiles && id in s.estimators && id in v.value.estimators
            && v.value.registry.profiles == s.registry.profiles[id := s.registry.profiles[id].(healthy := true)]
            && v.value.estimators == s.estimators[id := v.value.estimators[id]]
            && v.value.estimators[id].values != []
            && (var w := v.value.estimators[id].values; w[|w| - 1] == ms)
            && (s.policy.deadlineMissWindowFrames > 0 ==>
                  var w := v.value.missWindow; w != [] && w[|w| - 1] == (ms > s.policy.deadlineMs))
            && v.value.escalation == if s.policy.confidenceEscalationEnabled && signal >= 0.0
                                     then signal < s.policy.confidenceEscalationThreshold else s.escalation
  {
    hide Framed, Evaluated, ObservedState, Told, Decision, RecoveryAfter, SamplesAfter, Inv, Backed;
    var id := Gate(e, f).active.value;
    ExecutionReaches(e, f);
    ExecutedResult(e, f);
    ToldOfSuccess(f);
    SamplesEnd(e.controller.value.estimators[id], Told(f));
    SuccessRow(Gate(e, f), Told(f), id);
  }

  /** An observation that is rejected as stale changes no profile and no estimator, and holds. */
  lemma StaleFrameRaises(e: Engine, f: FrameInput)
    requires EngineOk(e) && Passes(e, f) && !f.outcome.Refused?
    requires f.sourceStale && e.controller.value.policy.failClosedOnStaleInput
    ensures var s, v := e.controller.value, Framed(e, f).engine.controller;
            && v.Some? && v.value.registry == s.registry && v.value.estimators == s.estimators
            && ObservedState(Gate(e, f), Told(f)).health.hold
            && ObservedState(Gate(e, f), Told(f)).health.state == FailClosed
  {
    hide Framed, Evaluated, ObservedState, Decision;
    ExecutionReaches(e, f);
    StaleRow(Gate(e, f), Told(f));
  }

  // Registration

  /** A registered profile has the documented numbers and starts cold, healthy and without a past. */
  lemma NewProfileExactly(b: BundleEntry)
    ensures var p := NewProfile(b);
            && p.status == b.status && p.certifiedQuality == b.certifiedQuality && p.certifiedP99Ms == b.certifiedP99Ms
            && p.offlineEnvelopeMs == b.offlineEnvelopeMs && p.utility == b.utility
            && !p.warmed && p.healthy && p.failureCount == 0 && p.cooldownUntilNs == 0
  {
  }

  /** A configuration starts from nothing; it succeeds exactly when the registration does and some
      profile is certified, and then runs under the given policy without a session. */
  lemma ConfiguredExactly(bundle: Option<seq<BundleEntry>>, policy: RuntimePolicy)
    ensures var e := Configuration(bundle, policy);
            && !e.ready && e.pool == {}
            && (bundle.None? ==> !e.configured && e.controller.None?)
            && (bundle.Some? ==>
                  (e.configured <==> Registered(bundle.value).ok
                                     && exists i | 0 <= i < |bundle.value| :: bundle.value[i].status.Certified?))
            && (e.configured ==> e.controller == Some(Initial(policy, Registered(bundle.value).registry)))
  {
    if bundle.Some? {
      RegistrationExactly(bundle.value);
      SomeRegistered(bundle.value);
    }
  }

  lemma {:induction false} SomeRegistered(entries: seq<BundleEntry>)
    ensures var r := Registered(entries);
            r.ok ==> (r.registry.order == [] <==> !exists i | 0 <= i < |entries| :: entries[i].status.Certified?)
  {
    if entries != [] {
      var before := entries[..|entries| - 1];
      SomeRegistered(before);
      assert forall i | 0 <= i < |before| :: before[i] == entries[i];
    }
  }

  /** A load evaluates only after all sessions came up and some profile was registered. */
  lemma LoadedExactly(e: Engine, created: nat, nowNs: int)
    requires e.configured && e.controller.Some?
    ensures var order := e.controller.value.registry.order;
            var t := Warmed(e.(ready := false), if created < |order| then order[..created] else order);
            var o := Loaded(e, created, nowNs);
            if created < |order| || t.pool == {} then o.engine == t && !o.result.ok
            else
              && t.controller.Some?
              && var s := Evaluated(t.controller.value, nowNs);
                 o.engine == t.(controller := Some(s), ready := s.active.Some?) && o.result.ok == s.active.Some?
  {
    hide Evaluated, EvaluationEvents;
  }
}
