/** The adaptive profile controller as a state machine on values: what each public call does to
    the state. The class in Controller.dfy is proved against these functions. */
module ControllerModel {
  import opened Common
  import opened Profiles
  import opened Eligibility
  import opened HealthMachines
  import opened LatencyEstimators

  const COOLDOWN_NS: int := 2_000_000_000
  const NS_PER_SECOND: int := 1_000_000_000

  datatype FrameObservation = FrameObservation(
    nowNs: int,
    latencyMs: real,
    inferenceOk: bool,
    confidenceSignal: real,
    sourceStale: bool)

  datatype ManualPin = ManualPin(profileId: string, expiresNs: int)

  datatype SwitchReason =
    | StartupSelect
    | DeadlineRiskDemotion
    | QualityPromotion
    | ConfidenceEscalation
    | ManualPinned
    | PinExpired
    | ProfileUnhealthy
    | NoEligible

  datatype Evidence =
    | NoEvidence
    | ManualPinActive
    | NothingEligible
    | InitialSelection
    | DemotionConfirmed
    | PromotionConfirmed

  datatype SwitchDecision = SwitchDecision(
    shouldSwitch: bool,
    from: Option<string>,
    to: Option<string>,
    reason: SwitchReason,
    evidence: Evidence)

  datatype State = State(
    policy: RuntimePolicy,
    registry: Registry,
    health: Health,
    active: Option<string>,
    estimators: map<string, Estimator>,
    pin: Option<ManualPin>,
    activeSinceNs: int,
    promotionStreak: int,
    demotionStreak: int,
    recoverStreak: int,
    missWindow: seq<bool>,
    escalation: bool)

  function Initial(policy: RuntimePolicy, registry: Registry): State {
    State(policy, registry, INITIAL, None, map[], None, 0, 0, 0, 0, [], false)
  }

  // Eligibility and choice

  /** The latency bound of a profile: its offline envelope, raised by what was measured online. */
  function BoundMs(s: State, id: string): real
    requires id in s.registry.profiles
  {
    var offline := s.registry.profiles[id].offlineEnvelopeMs;
    if id in s.estimators && s.estimators[id].values != [] then
      RMax(offline, ConservativeBound(s.estimators[id]))
    else
      offline
  }

  predicate EligibleAt(s: State, id: string, nowNs: int) {
    id in s.registry.profiles && IsEligible(s.registry.profiles[id], s.policy, BoundMs(s, id), nowNs)
  }

  /** The eligible ids among `ids`, in that order. */
  function EligibleIds(s: State, ids: seq<string>, nowNs: int): (r: seq<string>)
    ensures forall id :: id in r <==> id in ids && EligibleAt(s, id, nowNs)
  {
    if ids == [] then []
    else
      var last := ids[|ids| - 1];
      EligibleIds(s, ids[..|ids| - 1], nowNs) + if EligibleAt(s, last, nowNs) then [last] else []
  }

  predicate Better(a: Profile, b: Profile, preferQuality: bool) {
    if preferQuality && a.certifiedQuality != b.certifiedQuality then
      a.certifiedQuality > b.certifiedQuality
    else if a.utility != b.utility then
      a.utility > b.utility
    else
      a.certifiedP99Ms < b.certifiedP99Ms
  }

  /** The first of `ids` that no later one beats. */
  function Best(profiles: map<string, Profile>, ids: seq<string>, preferQuality: bool): (r: string)
    requires ids != [] && forall id | id in ids :: id in profiles
    ensures r in ids
  {
    var last := ids[|ids| - 1];
    if |ids| == 1 then last
    else
      var best := Best(profiles, ids[..|ids| - 1], preferQuality);
      if Better(profiles[last], profiles[best], preferQuality) then last else best
  }

  function CountTrue(s: seq<bool>): nat {
    if s == [] then 0
    else CountTrue(s[..|s| - 1]) + if s[|s| - 1] then 1 else 0
  }

  // evaluate_switch

  /** What one evaluation decides. */
  datatype Verdict =
    | PinHolds
    | PinSwitch(to: string)
    | NoneEligible
    | Startup(to: string)
    | Stable
    | DemotionPending
    | Demotion(to: string, deadlineRisk: bool)
    | PromotionPending
    | Promotion(to: string)
    | Neutral

  predicate PinHasExpired(s: State, nowNs: int) {
    s.pin.Some? && s.pin.value.expiresNs <= nowNs
  }

  /** A live pin decides only while its profile is eligible; it looks at the offline envelope
      alone, not at what was measured. */
  predicate PinDecides(s: State, nowNs: int) {
    && s.pin.Some?
    && s.pin.value.expiresNs > nowNs
    && var id := s.pin.value.profileId;
    && id in s.registry.profiles
    && var p := s.registry.profiles[id];
    && IsEligible(p, s.policy, p.offlineEnvelopeMs, nowNs)
  }

  predicate DeadlineRisk(s: State) {
    CountTrue(s.missWindow) >= s.policy.deadlineMissThreshold
  }

  predicate DwellOver(s: State, nowNs: int) {
    (nowNs - s.activeSinceNs) as real / 1_000_000.0 >= s.policy.minimumDwellMs
  }

  predicate MustDemote(s: State, nowNs: int)
    requires s.active.Some?
  {
    || DeadlineRisk(s)
    || !EligibleAt(s, s.active.value, nowNs)
    || !s.registry.profiles[s.active.value].healthy
  }

  function Judge(s: State, nowNs: int): Verdict {
    var ids := EligibleIds(s, s.registry.order, nowNs);
    if PinDecides(s, nowNs) then
      if s.active == Some(s.pin.value.profileId) then PinHolds else PinSwitch(s.pin.value.profileId)
    else if ids == [] then NoneEligible
    else Contest(s, Best(s.registry.profiles, ids, s.escalation), nowNs)
  }

  /** The best eligible profile against the active one. */
  function Contest(s: State, best: string, nowNs: int): Verdict
    requires best in s.registry.profiles
  {
    if s.active.None? then Startup(best)
    else if s.active.value == best then Stable
    else if MustDemote(s, nowNs) then
      if s.demotionStreak + 1 >= s.policy.demotionConfirmationFrames
      then Demotion(best, DeadlineRisk(s)) else DemotionPending
    else if DwellOver(s, nowNs)
         && s.registry.profiles[best].utility > s.registry.profiles[s.active.value].utility then
      if s.promotionStreak + 1 >= s.policy.promotionConfirmationFrames
      then Promotion(best) else PromotionPending
    else Neutral
  }

  function Activate(s: State, id: string, nowNs: int, health: Health): State {
    s.(active := Some(id), activeSinceNs := nowNs, health := health)
  }

  /** The stable branch leaves fail-closed, ready and recovering alone. */
  function Stabilised(h: Health): Health {
    if h.state == FailClosed || h.state == Ready || h.state == Recovering then h
    else SetReady(h, ActiveProfileStable)
  }

  function Evaluated(s: State, nowNs: int): State {
    Applied(s, nowNs, Judge(s, nowNs))
  }

  function Decision(s: State, nowNs: int): SwitchDecision {
    Announced(s, NoSwitch(s, nowNs), Judge(s, nowNs))
  }

  function WithoutExpiredPin(s: State, nowNs: int): State {
    if PinHasExpired(s, nowNs) then s.(pin := None) else s
  }

  function Applied(s: State, nowNs: int, v: Verdict): State {
    var t := WithoutExpiredPin(s, nowNs);
    match v
    case PinHolds => t
    case PinSwitch(id) => Activate(t, id, nowNs, SetReady(s.health, PinnedProfile))
    case NoneEligible =>
      var h := if s.policy.failClosedOnNoEligibleProfile
               then SetFailClosed(s.health, NoEligibleProfile) else s.health;
      t.(active := None, health := h)
    case Startup(id) => Activate(t, id, nowNs, SetReady(s.health, StartupProfileSelected))
    case Stable => t.(promotionStreak := 0, demotionStreak := 0, health := Stabilised(s.health))
    case DemotionPending => t.(promotionStreak := 0, demotionStreak := s.demotionStreak + 1)
    case Demotion(id, _) =>
      Activate(t, id, nowNs, SetDegraded(s.health, ProfileSwitchDemotion))
        .(promotionStreak := 0, demotionStreak := 0)
    case PromotionPending => t.(promotionStreak := s.promotionStreak + 1, demotionStreak := 0)
    case Promotion(id) =>
      Activate(t, id, nowNs, SetReady(s.health, ProfileSwitchPromotion))
        .(promotionStreak := 0, demotionStreak := 0)
    case Neutral => t.(promotionStreak := 0)
  }

  function NoSwitch(s: State, nowNs: int): SwitchDecision {
    SwitchDecision(false, None, None, if PinHasExpired(s, nowNs) then PinExpired else StartupSelect, NoEvidence)
  }

  function Announced(s: State, base: SwitchDecision, v: Verdict): SwitchDecision {
    match v
    case PinSwitch(id) => SwitchDecision(true, s.active, Some(id), ManualPinned, ManualPinActive)
    case NoneEligible => SwitchDecision(false, None, None, NoEligible, NothingEligible)
    case Startup(id) => SwitchDecision(true, None, Some(id), StartupSelect, InitialSelection)
    case Demotion(id, risk) =>
      SwitchDecision(true, s.active, Some(id), if risk then DeadlineRiskDemotion else ProfileUnhealthy,
                     DemotionConfirmed)
    case Promotion(id) =>
      SwitchDecision(true, s.active, Some(id), if s.escalation then ConfidenceEscalation else QualityPromotion,
                     PromotionConfirmed)
    case _ => base
  }

  // observe

  /** A failure puts the active profile into cooldown; a success restores it and feeds its
      estimator. */
  function Attributed(s: State, id: string, obs: FrameObservation): State
    requires id in s.registry.profiles
  {
    var p := s.registry.profiles[id];
    if obs.inferenceOk then
      SetProfile(s, id, p.(healthy := true))
        .(estimators := if id in s.estimators
                        then s.estimators[id := Observed(s.estimators[id], obs.latencyMs)] else s.estimators)
    else
      SetProfile(s, id, p.(healthy := false, failureCount := p.failureCount + 1,
                           cooldownUntilNs := obs.nowNs + COOLDOWN_NS))
        .(health := SetDegraded(s.health, InferenceFailed))
  }

  function SetProfile(s: State, id: string, p: Profile): State {
    s.(registry := s.registry.(profiles := s.registry.profiles[id := p]))
  }

  predicate Missed(s: State, obs: FrameObservation) {
    obs.latencyMs > s.policy.deadlineMs
  }

  function WindowAfter(s: State, miss: bool): seq<bool> {
    var w := s.missWindow + [miss];
    if |w| > Max(0, s.policy.deadlineMissWindowFrames) then w[1..] else w
  }

  function EscalationAfter(s: State, obs: FrameObservation): bool {
    if s.policy.confidenceEscalationEnabled && obs.confidenceSignal >= 0.0
    then obs.confidenceSignal < s.policy.confidenceEscalationThreshold
    else s.escalation
  }

  function RecoveryCounted(s: State, good: bool): State {
    if s.health.state != Recovering then s
    else if !good then s.(recoverStreak := 0)
    else if s.recoverStreak + 1 >= s.policy.recoverConfirmationFrames
    then s.(recoverStreak := 0, health := SetReady(s.health, RecoveryConfirmed))
    else s.(recoverStreak := s.recoverStreak + 1)
  }

  /** An observation is counted unless it is rejected as stale or there is no active profile. */
  predicate Counted(s: State, obs: FrameObservation) {
    && !(obs.sourceStale && s.policy.failClosedOnStaleInput)
    && s.active.Some? && s.active.value in s.registry.profiles
  }

  function ObservedState(s: State, obs: FrameObservation): State {
    if obs.sourceStale && s.policy.failClosedOnStaleInput then
      s.(health := SetFailClosed(s.health, InputStale))
    else if !Counted(s, obs) then s
    else
      var miss := Missed(s, obs);
      var t := Attributed(s, s.active.value, obs)
        .(missWindow := WindowAfter(s, miss), escalation := EscalationAfter(s, obs));
      RecoveryCounted(t, obs.inferenceOk && !miss)
  }

  // Operator requests and set-up

  predicate PinAccepted(s: State, id: string, seconds: int) {
    0 < seconds <= s.policy.manualPinMaximumSeconds && id in s.registry.profiles
  }

  function PinRequested(s: State, id: string, nowNs: int, seconds: int): State {
    if PinAccepted(s, id, seconds) then s.(pin := Some(ManualPin(id, nowNs + seconds * NS_PER_SECOND)))
    else s
  }

  predicate RecoveryAccepted(s: State) {
    s.health.state == FailClosed || s.health.state == Degraded
  }

  function Healed(p: Profile): Profile {
    if p.status.Certified? then p.(healthy := true, failureCount := 0, cooldownUntilNs := 0) else p
  }

  function RecoveryRequested(s: State): State {
    if !RecoveryAccepted(s) then s
    else
      s.(recoverStreak := 0,
         health := ClearHold(BeginRecovery(s.health, OperatorRecoveryRequest)),
         registry := s.registry.(profiles := map id | id in s.registry.profiles :: Healed(s.registry.profiles[id])))
  }

  function PolicyUpdated(s: State, policy: RuntimePolicy): State {
    if PolicyAccepted(policy) then s.(policy := policy, missWindow := []) else s
  }

  function NewEstimator(policy: RuntimePolicy): Estimator {
    Fresh(policy.latencyWindowSamples, policy.latencyQuantile, policy.latencyMadMultiplier, policy.latencyMarginMs)
  }

  function MarkedWarmed(s: State, id: string): State {
    if id !in s.registry.profiles then s
    else
      SetProfile(s, id, s.registry.profiles[id].(warmed := true))
        .(estimators := if id in s.estimators then s.estimators else s.estimators[id := NewEstimator(s.policy)])
  }

  // Runs

  datatype Op =
    | Observe(obs: FrameObservation)
    | Evaluate(nowNs: int)
    | RequestPin(id: string, nowNs: int, seconds: int)
    | ClearPin
    | RequestRecovery
    | UpdatePolicy(policy: RuntimePolicy)
    | MarkWarmed(id: string)

  function Step(s: State, op: Op): State {
    match op
    case Observe(obs) => ObservedState(s, obs)
    case Evaluate(nowNs) => Evaluated(s, nowNs)
    case RequestPin(id, nowNs, seconds) => PinRequested(s, id, nowNs, seconds)
    case ClearPin => s.(pin := None)
    case RequestRecovery => RecoveryRequested(s)
    case UpdatePolicy(policy) => PolicyUpdated(s, policy)
    case MarkWarmed(id) => MarkedWarmed(s, id)
  }

  function Run(s: State, ops: seq<Op>): State {
    if ops == [] then s else Step(Run(s, ops[..|ops| - 1]), ops[|ops| - 1])
  }

  predicate Switches(s: State, op: Op) {
    op.Evaluate? && Decision(s, op.nowNs).shouldSwitch
  }
}
