/** Each call of the controller, case by case, in terms of its fields: the condition of the case on
    the old state, and the whole new state. */
module ControllerTables {
  import opened Common
  import opened Profiles
  import opened Eligibility
  import opened HealthMachines
  import opened LatencyEstimators
  import opened ControllerModel
  import opened ControllerRuns
  import opened SwitchRuns

  /** The history after entering `to`. */
  ghost function After(h: Health, to: HealthState, reason: ReasonCode): seq<HealthTransition> {
    if h.state == to then h.history else h.history + [HealthTransition(h.state, to, reason)]
  }

  ghost function ReadyNow(h: Health, reason: ReasonCode): Health {
    Health(Ready, false, NoReason, After(h, Ready, reason))
  }

  ghost function HeldNow(h: Health, reason: ReasonCode): Health {
    Health(FailClosed, true, reason, After(h, FailClosed, reason))
  }

  ghost function DegradedNow(h: Health, reason: ReasonCode): Health {
    Health(Degraded, h.hold, h.holdReason, After(h, Degraded, reason))
  }

  /** A new controller: starting, without a hold, an active profile, a pin or anything measured. */
  lemma InitialRow(policy: RuntimePolicy, registry: Registry)
    ensures Initial(policy, registry)
         == State(policy, registry, Health(Starting, false, NoReason, []), None, map[], None, 0, 0, 0, 0, [], false)
  {
  }

  // Eligibility

  lemma EligibleExactly(s: State, id: string, nowNs: int)
    ensures EligibleAt(s, id, nowNs) <==>
            && id in s.registry.profiles
            && var p := s.registry.profiles[id];
            && p.status.Certified? && p.warmed
            && p.cooldownUntilNs <= nowNs
            && (p.healthy || (p.cooldownUntilNs != 0x7FFF_FFFF_FFFF_FFFF && p.failureCount < s.policy.maxTransientFailures))
            && p.certifiedQuality >= s.policy.minimumQualityValue
            && p.offlineEnvelopeMs <= s.policy.deadlineMs
            && p.offlineEnvelopeMs * s.policy.offlineEnvelopeWeight <= s.policy.deadlineMs
            && (id in s.estimators && s.estimators[id].values != [] ==>
                  ConservativeBound(s.estimators[id]) <= s.policy.deadlineMs)
  {
    hide ConservativeBound;
  }

  lemma {:induction false} MissesCounted(window: seq<bool>)
    ensures CountTrue(window) == multiset(window)[true]
  {
    if window != [] {
      MissesCounted(window[..|window| - 1]);
      assert window == window[..|window| - 1] + [window[|window| - 1]];
    }
  }

  // Evaluations

  /** A live pin on a profile that is eligible with its offline envelope as the online bound. */
  ghost predicate PinRules(s: State, nowNs: int) {
    && s.pin.Some? && nowNs < s.pin.value.expiresNs
    && s.pin.value.profileId in s.registry.profiles
    && var p := s.registry.profiles[s.pin.value.profileId];
    && IsEligible(p, s.policy, p.offlineEnvelopeMs, nowNs)
  }

  ghost predicate PinExpired(s: State, nowNs: int) {
    s.pin.Some? && s.pin.value.expiresNs <= nowNs
  }

  /** What every case without a deciding pin starts from: an expired pin is gone. */
  ghost function Unpinned(s: State, nowNs: int): State {
    s.(pin := if PinExpired(s, nowNs) then None else s.pin)
  }

  ghost function Quiet(s: State, nowNs: int): SwitchDecision {
    SwitchDecision(false, None, None, if PinExpired(s, nowNs) then SwitchReason.PinExpired else StartupSelect, NoEvidence)
  }

  lemma PinRow(s: State, nowNs: int)
    requires PinRules(s, nowNs)
    ensures var id := s.pin.value.profileId;
            if s.active == Some(id) then
              Evaluated(s, nowNs) == s
              && Decision(s, nowNs) == SwitchDecision(false, None, None, StartupSelect, NoEvidence)
            else
              && Evaluated(s, nowNs)
                 == s.(active := Some(id), activeSinceNs := nowNs, health := ReadyNow(s.health, PinnedProfile))
              && Decision(s, nowNs) == SwitchDecision(true, s.active, Some(id), ManualPinned, ManualPinActive)
  {
    hide IsEligible;
  }

  lemma NoneRow(s: State, nowNs: int)
    requires !PinRules(s, nowNs) && forall id :: !EligibleAt(s, id, nowNs)
    ensures Evaluated(s, nowNs)
         == Unpinned(s, nowNs).(active := None,
                                health := if s.policy.failClosedOnNoEligibleProfile
                                          then HeldNow(s.health, NoEligibleProfile) else s.health)
    ensures Decision(s, nowNs) == SwitchDecision(false, None, None, NoEligible, NothingEligible)
  {
    hide IsEligible, EligibleAt;
  }

  /** With a first choice and no deciding pin, the verdict is that of the contest. */
  lemma VerdictIsContest(s: State, best: string, nowNs: int)
    requires !PinRules(s, nowNs) && FirstAmong(s, s.registry.order, best, nowNs)
    ensures best in s.registry.profiles && Judge(s, nowNs) == Contest(s, best, nowNs)
  {
    var order := s.registry.order;
    var ids := EligibleIds(s, order, nowNs);
    FirstIsEligible(s, order, best, nowNs);
    assert best in ids;
    hide Contest, IsEligible, EligibleAt, FirstAmong;
    ChoiceIsFirst(s, order, nowNs);
    FirstIsUnique(s, order, Best(s.registry.profiles, ids, s.escalation), best, nowNs);
  }

  lemma FirstIsEligible(s: State, ids: seq<string>, id: string, nowNs: int)
    requires FirstAmong(s, ids, id, nowNs)
    ensures id in ids && EligibleAt(s, id, nowNs) && id in s.registry.profiles
  {
    hide AtLeastAsGood;
  }

  lemma StartupRow(s: State, best: string, nowNs: int)
    requires !PinRules(s, nowNs) && FirstAmong(s, s.registry.order, best, nowNs) && s.active.None?
    ensures Evaluated(s, nowNs)
         == Unpinned(s, nowNs).(active := Some(best), activeSinceNs := nowNs,
                                health := ReadyNow(s.health, StartupProfileSelected))
    ensures Decision(s, nowNs) == SwitchDecision(true, None, Some(best), StartupSelect, InitialSelection)
  {
    hide FirstAmong, IsEligible, Judge;
    VerdictIsContest(s, best, nowNs);
  }

  lemma StableRow(s: State, best: string, nowNs: int)
    requires !PinRules(s, nowNs) && FirstAmong(s, s.registry.order, best, nowNs) && s.active == Some(best)
    ensures var keeps := s.health.state == FailClosed || s.health.state == Ready || s.health.state == Recovering;
            Evaluated(s, nowNs)
            == Unpinned(s, nowNs).(promotionStreak := 0, demotionStreak := 0,
                                   health := if keeps then s.health else ReadyNow(s.health, ActiveProfileStable))
    ensures Decision(s, nowNs) == Quiet(s, nowNs)
  {
    hide FirstAmong, IsEligible, Judge;
    VerdictIsContest(s, best, nowNs);
  }

  ghost predicate AtRisk(s: State) {
    multiset(s.missWindow)[true] >= s.policy.deadlineMissThreshold
  }

  /** The active profile has to be given up: too many deadline misses, or it is no longer eligible,
      or not healthy. */
  ghost predicate DemotionDue(s: State, nowNs: int) {
    s.active.Some? &&
    (AtRisk(s) || !EligibleAt(s, s.active.value, nowNs) || !s.registry.profiles[s.active.value].healthy)
  }

  lemma ContestDemotes(s: State, best: string, nowNs: int)
    requires best in s.registry.profiles && s.active.Some? && s.active.value != best
    ensures Contest(s, best, nowNs).Demotion? || Contest(s, best, nowNs).DemotionPending? <==> DemotionDue(s, nowNs)
    ensures DemotionDue(s, nowNs) ==>
              Contest(s, best, nowNs) == if s.demotionStreak + 1 >= s.policy.demotionConfirmationFrames
                                         then Demotion(best, AtRisk(s)) else DemotionPending
  {
    hide IsEligible, BoundMs;
    MissesCounted(s.missWindow);
  }

  lemma DemotionRow(s: State, best: string, nowNs: int)
    requires !PinRules(s, nowNs) && FirstAmong(s, s.registry.order, best, nowNs)
    requires s.active.Some? && s.active.value != best && DemotionDue(s, nowNs)
    ensures if s.demotionStreak + 1 >= s.policy.demotionConfirmationFrames then
              && Evaluated(s, nowNs)
                 == Unpinned(s, nowNs).(active := Some(best), activeSinceNs := nowNs, promotionStreak := 0,
                                        demotionStreak := 0, health := DegradedNow(s.health, ProfileSwitchDemotion))
              && Decision(s, nowNs)
                 == SwitchDecision(true, s.active, Some(best),
                                   if AtRisk(s) then DeadlineRiskDemotion else ProfileUnhealthy, DemotionConfirmed)
            else
              && Evaluated(s, nowNs)
                 == Unpinned(s, nowNs).(promotionStreak := 0, demotionStreak := s.demotionStreak + 1)
              && Decision(s, nowNs) == Quiet(s, nowNs)
  {
    hide FirstAmong, IsEligible, Judge, Contest, DemotionDue, AtRisk;
    VerdictIsContest(s, best, nowNs);
    ContestDemotes(s, best, nowNs);
  }

  /** The dwell time is over and the best profile has more utility than the active one. */
  ghost predicate PromotionDue(s: State, best: string, nowNs: int)
    requires best in s.registry.profiles
  {
    && s.active.Some? && s.active.value in s.registry.profiles
    && (nowNs - s.activeSinceNs) as real / 1_000_000.0 >= s.policy.minimumDwellMs
    && s.registry.profiles[best].utility > s.registry.profiles[s.active.value].utility
  }

  lemma ContestPromotesExactly(s: State, best: string, nowNs: int)
    requires best in s.registry.profiles && s.active.Some? && s.active.value != best && !DemotionDue(s, nowNs)
    ensures Contest(s, best, nowNs) == if !PromotionDue(s, best, nowNs) then Neutral
                                       else if s.promotionStreak + 1 >= s.policy.promotionConfirmationFrames
                                       then Promotion(best) else PromotionPending
  {
    hide IsEligible, BoundMs;
    MissesCounted(s.missWindow);
  }

  lemma PromotionRow(s: State, best: string, nowNs: int)
    requires !PinRules(s, nowNs) && FirstAmong(s, s.registry.order, best, nowNs) && best in s.registry.profiles
    requires s.active.Some? && s.active.value != best && !DemotionDue(s, nowNs) && PromotionDue(s, best, nowNs)
    ensures if s.promotionStreak + 1 >= s.policy.promotionConfirmationFrames then
              && Evaluated(s, nowNs)
                 == Unpinned(s, nowNs).(active := Some(best), activeSinceNs := nowNs, promotionStreak := 0,
                                        demotionStreak := 0, health := ReadyNow(s.health, ProfileSwitchPromotion))
              && Decision(s, nowNs)
                 == SwitchDecision(true, s.active, Some(best),
                                   if s.escalation then ConfidenceEscalation else QualityPromotion, PromotionConfirmed)
            else
              && Evaluated(s, nowNs)
                 == Unpinned(s, nowNs).(promotionStreak := s.promotionStreak + 1, demotionStreak := 0)
              && Decision(s, nowNs) == Quiet(s, nowNs)
  {
    hide FirstAmong, IsEligible, Judge, Contest, DemotionDue, PromotionDue;
    VerdictIsContest(s, best, nowNs);
    ContestPromotesExactly(s, best, nowNs);
  }

  /** Neither is due: the demotion streak stays as it is. */
  lemma NeutralRow(s: State, best: string, nowNs: int)
    requires !PinRules(s, nowNs) && FirstAmong(s, s.registry.order, best, nowNs) && best in s.registry.profiles
    requires s.active.Some? && s.active.value != best && !DemotionDue(s, nowNs) && !PromotionDue(s, best, nowNs)
    ensures Evaluated(s, nowNs) == Unpinned(s, nowNs).(promotionStreak := 0)
    ensures Decision(s, nowNs) == Quiet(s, nowNs)
  {
    hide FirstAmong, IsEligible, Judge, Contest, DemotionDue, PromotionDue;
    VerdictIsContest(s, best, nowNs);
    ContestPromotesExactly(s, best, nowNs);
  }

  /** The cases are complete: someone is the first choice unless nobody is eligible. */
  lemma SomeoneIsFirst(s: State, nowNs: int)
    requires RegistryOk(s.registry)
    ensures (exists id :: EligibleAt(s, id, nowNs)) <==> (exists best :: FirstAmong(s, s.registry.order, best, nowNs))
  {
    hide IsEligible, FirstAmong;
    if id :| EligibleAt(s, id, nowNs) {
      assert id in EligibleIds(s, s.registry.order, nowNs);
      ChoiceIsFirst(s, s.registry.order, nowNs);
    }
    if best :| FirstAmong(s, s.registry.order, best, nowNs) {
      FirstIsEligible(s, s.registry.order, best, nowNs);
    }
  }

  // Observations

  ghost predicate Rejected(s: State, obs: FrameObservation) {
    obs.sourceStale && s.policy.failClosedOnStaleInput
  }

  lemma StaleRow(s: State, obs: FrameObservation)
    requires Rejected(s, obs)
    ensures ObservedState(s, obs) == s.(health := HeldNow(s.health, InputStale))
  {
  }

  lemma UnattributedRow(s: State, obs: FrameObservation)
    requires !Rejected(s, obs) && (s.active.None? || s.active.value !in s.registry.profiles)
    ensures ObservedState(s, obs) == s
  {
  }

  /** The miss window takes up whether the deadline was missed, and drops its oldest flag when full. */
  ghost function MissesAfter(s: State, obs: FrameObservation): seq<bool> {
    var w := s.missWindow + [obs.latencyMs > s.policy.deadlineMs];
    if |w| > (if s.policy.deadlineMissWindowFrames < 0 then 0 else s.policy.deadlineMissWindowFrames) then w[1..] else w
  }

  /** A confidence below the threshold escalates; a negative one is no signal. */
  ghost function EscalatesAfter(s: State, obs: FrameObservation): bool {
    if s.policy.confidenceEscalationEnabled && obs.confidenceSignal >= 0.0
    then obs.confidenceSignal < s.policy.confidenceEscalationThreshold else s.escalation
  }

  lemma FailureRow(s: State, obs: FrameObservation, id: string)
    requires !Rejected(s, obs) && s.active == Some(id) && id in s.registry.profiles && !obs.inferenceOk
    ensures var p := s.registry.profiles[id];
            ObservedState(s, obs)
            == s.(registry := Registry(s.registry.order, s.registry.profiles[id :=
                    p.(healthy := false, failureCount := p.failureCount + 1, cooldownUntilNs := obs.nowNs + 2_000_000_000)]),
                  health := DegradedNow(s.health, InferenceFailed),
                  missWindow := MissesAfter(s, obs), escalation := EscalatesAfter(s, obs))
  {
  }

  /** The health and the recovery streak after a success. */
  ghost function RecoveryAfter(s: State, obs: FrameObservation): (Health, int) {
    if s.health.state != Recovering then (s.health, s.recoverStreak)
    else if obs.latencyMs > s.policy.deadlineMs then (s.health, 0)
    else if s.recoverStreak + 1 >= s.policy.recoverConfirmationFrames then (ReadyNow(s.health, RecoveryConfirmed), 0)
    else (s.health, s.recoverStreak + 1)
  }

  lemma SuccessRow(s: State, obs: FrameObservation, id: string)
    requires !Rejected(s, obs) && s.active == Some(id) && id in s.registry.profiles && obs.inferenceOk
    ensures var p := s.registry.profiles[id];
            ObservedState(s, obs)
            == s.(registry := Registry(s.registry.order, s.registry.profiles[id := p.(healthy := true)]),
                  estimators := if id !in s.estimators then s.estimators
                                else s.estimators[id := s.estimators[id].(values := SamplesAfter(s.estimators[id], obs))],
                  health := RecoveryAfter(s, obs).0, recoverStreak := RecoveryAfter(s, obs).1,
                  missWindow := MissesAfter(s, obs), escalation := EscalatesAfter(s, obs))
  {
  }

  ghost function SamplesAfter(e: Estimator, obs: FrameObservation): seq<real> {
    var values := e.values + [obs.latencyMs];
    if |values| > e.window then values[1..] else values
  }

  // Operator requests and set-up

  lemma PinRequestRow(s: State, id: string, nowNs: int, seconds: int)
    ensures PinRequested(s, id, nowNs, seconds)
         == if 0 < seconds <= s.policy.manualPinMaximumSeconds && id in s.registry.profiles
            then s.(pin := Some(ManualPin(id, nowNs + seconds * 1_000_000_000))) else s
  {
  }

  /** A pin decides for its profile at most as many seconds as it was requested for. */
  lemma PinsEnd(s: State, t: State, id: string, requestedNs: int, seconds: int, nowNs: int)
    requires 0 < seconds <= s.policy.manualPinMaximumSeconds && id in s.registry.profiles
    requires t.pin == PinRequested(s, id, requestedNs, seconds).pin && PinRules(t, nowNs)
    ensures t.pin.value.profileId == id && nowNs < requestedNs + seconds * 1_000_000_000
  {
    hide IsEligible;
    PinRequestRow(s, id, requestedNs, seconds);
  }

  lemma RecoveryRow(s: State)
    ensures var t := RecoveryRequested(s);
            if s.health.state != FailClosed && s.health.state != Degraded then t == s
            else
              && t == s.(recoverStreak := 0, registry := t.registry,
                         health := Health(Recovering, false, NoReason, After(s.health, Recovering, OperatorRecoveryRequest)))
              && t.registry.order == s.registry.order && t.registry.profiles.Keys == s.registry.profiles.Keys
              && forall id | id in s.registry.profiles ::
                   var p := s.registry.profiles[id];
                   t.registry.profiles[id] == if p.status.Certified?
                                              then p.(healthy := true, failureCount := 0, cooldownUntilNs := 0) else p
  {
  }

  /** An accepted recovery makes a certified profile eligible again as far as its past is concerned:
      from time zero on only warmth, quality and the bounds decide. */
  lemma RecoveryMakesEligible(s: State, id: string, nowNs: int)
    requires s.health.state == FailClosed || s.health.state == Degraded
    requires id in s.registry.profiles && s.registry.profiles[id].status.Certified? && nowNs >= 0
    ensures var p := s.registry.profiles[id];
            EligibleAt(RecoveryRequested(s), id, nowNs) <==>
            && p.warmed && p.certifiedQuality >= s.policy.minimumQualityValue
            && p.offlineEnvelopeMs <= s.policy.deadlineMs
            && p.offlineEnvelopeMs * s.policy.offlineEnvelopeWeight <= s.policy.deadlineMs
            && (id in s.estimators && s.estimators[id].values != [] ==>
                  ConservativeBound(s.estimators[id]) <= s.policy.deadlineMs)
  {
    hide ConservativeBound, EligibleAt, RecoveryRequested;
    RecoveryRow(s);
    EligibleExactly(RecoveryRequested(s), id, nowNs);
  }

  lemma PolicyRow(s: State, policy: RuntimePolicy)
    ensures PolicyUpdated(s, policy)
         == if policy.deadlineMs > 0.0 && policy.demotionConfirmationFrames >= 1
               && policy.promotionConfirmationFrames >= 1 && policy.maxTransientFailures >= 1
            then s.(policy := policy, missWindow := []) else s
  {
  }

  lemma WarmRow(s: State, id: string)
    ensures var t := MarkedWarmed(s, id);
            if id !in s.registry.profiles then t == s
            else
              && t.registry == Registry(s.registry.order, s.registry.profiles[id := s.registry.profiles[id].(warmed := true)])
              && t == s.(registry := t.registry, estimators := t.estimators)
              && t.estimators == if id in s.estimators then s.estimators
                                 else s.estimators[id := Estimator(
                                   if s.policy.latencyWindowSamples < 8 then 8 else s.policy.latencyWindowSamples,
                                   s.policy.latencyQuantile, s.policy.latencyMadMultiplier, s.policy.latencyMarginMs, [])]
  {
  }

  // The record of a profile over a run

  /** The observation is attributed to `id`: it is not rejected, and `id` is active and registered. */
  ghost predicate AttributedTo(s: State, op: Op, id: string) {
    op.Observe? && !Rejected(s, op.obs) && s.active == Some(id) && id in s.registry.profiles
  }

  ghost predicate RecoversAt(s: State, op: Op) {
    op.RequestRecovery? && (s.health.state == FailClosed || s.health.state == Degraded)
  }

  datatype Record = Record(healthy: bool, failures: int, cooldownUntilNs: int)

  /** What a run says about a certified profile that starts with the record `first`: an accepted
      recovery clears it, and an attributed observation adds to it. */
  ghost function RecordOf(s: State, ops: seq<Op>, id: string, first: Record): Record {
    if ops == [] then first
    else
      var before, op := ops[..|ops| - 1], ops[|ops| - 1];
      var r := RecordOf(s, before, id, first);
      if RecoversAt(Run(s, before), op) then Record(true, 0, 0)
      else if !AttributedTo(Run(s, before), op, id) then r
      else if op.obs.inferenceOk then r.(healthy := true)
      else Record(false, r.failures + 1, op.obs.nowNs + 2_000_000_000)
  }

  ghost function RecordIn(s: State, id: string): Record
    requires id in s.registry.profiles
  {
    var p := s.registry.profiles[id];
    Record(p.healthy, p.failureCount, p.cooldownUntilNs)
  }

  lemma RecordStep(s: State, op: Op, id: string)
    requires id in s.registry.profiles && s.registry.profiles[id].status.Certified?
    ensures id in Step(s, op).registry.profiles && Step(s, op).registry.profiles[id].status.Certified?
    ensures var r := RecordIn(s, id);
            RecordIn(Step(s, op), id)
            == if RecoversAt(s, op) then Record(true, 0, 0)
               else if !AttributedTo(s, op, id) then r
               else if op.obs.inferenceOk then r.(healthy := true)
               else Record(false, r.failures + 1, op.obs.nowNs + 2_000_000_000)
  {
    match op
    case Evaluate(nowNs) => EvaluatedFrame(s, nowNs);
    case RequestRecovery => RecoveryRow(s);
    case Observe(obs) => ObservedRecord(s, obs, id);
    case _ =>
  }

  lemma ObservedRecord(s: State, obs: FrameObservation, id: string)
    requires id in s.registry.profiles
    ensures var t, r := ObservedState(s, obs), RecordIn(s, id);
            && id in t.registry.profiles && t.registry.profiles[id].status == s.registry.profiles[id].status
            && RecordIn(t, id) == if !AttributedTo(s, ControllerModel.Observe(obs), id) then r
                                  else if obs.inferenceOk then r.(healthy := true)
                                  else Record(false, r.failures + 1, obs.nowNs + 2_000_000_000)
  {
    hide ObservedState, MissesAfter, EscalatesAfter, SamplesAfter, RecoveryAfter;
    if Rejected(s, obs) {
      StaleRow(s, obs);
    } else if s.active.None? || s.active.value !in s.registry.profiles {
      UnattributedRow(s, obs);
    } else if obs.inferenceOk {
      SuccessRow(s, obs, s.active.value);
    } else {
      FailureRow(s, obs, s.active.value);
    }
  }

  /** In every run the health, the failure count and the cooldown of a certified profile are those
      of its record: healthy exactly when its last attributed observation since the last accepted
      recovery succeeded, or there is none; failures counted since then; two seconds of cooldown
      after the last one. */
  lemma {:induction false} RecordIsKept(s: State, ops: seq<Op>, id: string)
    requires id in s.registry.profiles && s.registry.profiles[id].status.Certified?
    ensures id in Run(s, ops).registry.profiles && Run(s, ops).registry.profiles[id].status.Certified?
    ensures RecordIn(Run(s, ops), id) == RecordOf(s, ops, id, RecordIn(s, id))
  {
    hide Step, RecoversAt, AttributedTo;
    if ops != [] {
      RecordIsKept(s, ops[..|ops| - 1], id);
      RecordStep(Run(s, ops[..|ops| - 1]), ops[|ops| - 1], id);
    }
  }

  /** The operation at `k` is the last one in the run that changes the record of `id`. */
  ghost predicate LastEntry(s: State, ops: seq<Op>, id: string, k: nat) {
    && k < |ops|
    && (RecoversAt(Run(s, ops[..k]), ops[k]) || AttributedTo(Run(s, ops[..k]), ops[k], id))
    && forall j | k < j < |ops| ::
         !RecoversAt(Run(s, ops[..j]), ops[j]) && !AttributedTo(Run(s, ops[..j]), ops[j], id)
  }

  /** The same without recursion: the last recovery or attributed observation decides the health. */
  lemma {:induction false} LastEntryDecidesHealth(s: State, ops: seq<Op>, id: string, k: nat)
    requires id in s.registry.profiles && s.registry.profiles[id].status.Certified? && LastEntry(s, ops, id, k)
    ensures id in Run(s, ops).registry.profiles
    ensures Run(s, ops).registry.profiles[id].healthy <==> ops[k].RequestRecovery? || ops[k].obs.inferenceOk
  {
    hide Step, RecoversAt, AttributedTo;
    var before, op := ops[..|ops| - 1], ops[|ops| - 1];
    RecordIsKept(s, before, id);
    RecordStep(Run(s, before), op, id);
    if k < |ops| - 1 {
      assert before[..k] == ops[..k];
      forall j | k < j < |before|
        ensures !RecoversAt(Run(s, before[..j]), before[j]) && !AttributedTo(Run(s, before[..j]), before[j], id)
      {
        assert before[..j] == ops[..j];
      }
      LastEntryDecidesHealth(s, before, id, k);
    } else {
      EntryKinds(Run(s, before), op, id);
    }
  }

  lemma EntryKinds(s: State, op: Op, id: string)
    ensures RecoversAt(s, op) ==> op.RequestRecovery?
    ensures AttributedTo(s, op, id) ==> op.Observe?
  {
  }
}
