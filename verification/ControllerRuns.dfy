/** What holds of every run of the controller, that is, of every sequence of public calls. */
module ControllerRuns {
  import opened Common
  import opened Profiles
  import opened Eligibility
  import opened HealthMachines
  import opened LatencyEstimators
  import opened ControllerModel

  lemma RunPrefix(s: State, ops: seq<Op>, i: nat)
    requires i < |ops|
    ensures Run(s, ops[..i + 1]) == Step(Run(s, ops[..i]), ops[i])
  {
    assert ops[..i + 1][..i] == ops[..i];
  }

  lemma {:induction false} RunSplit(s: State, a: seq<Op>, b: seq<Op>)
    ensures Run(s, a + b) == Run(Run(s, a), b)
  {
    if b == [] {
      assert a + b == a;
    } else {
      assert (a + b)[..|a + b| - 1] == a + b[..|b| - 1];
      RunSplit(s, a, b[..|b| - 1]);
    }
  }

  // Invariants

  /** What an operation can never change about a profile. */
  ghost predicate SameDocument(p: Profile, q: Profile) {
    && p.status == q.status && p.utility == q.utility && p.certifiedQuality == q.certifiedQuality
    && p.certifiedP99Ms == q.certifiedP99Ms && p.offlineEnvelopeMs == q.offlineEnvelopeMs
    && (p.warmed ==> q.warmed)
  }

  ghost predicate SameDocuments(r: Registry, t: Registry) {
    && r.order == t.order && r.profiles.Keys == t.profiles.Keys
    && forall id | id in r.profiles :: SameDocument(r.profiles[id], t.profiles[id])
  }

  /** The active profile, if any, is registered, certified and warmed. */
  ghost predicate ActiveOk(s: State) {
    s.active.Some? ==>
      && s.active.value in s.registry.profiles
      && s.registry.profiles[s.active.value].status.Certified?
      && s.registry.profiles[s.active.value].warmed
  }

  ghost predicate Inv(s: State) {
    && RegistryOk(s.registry)
    && HealthInv(s.health)
    && ActiveOk(s)
    && s.promotionStreak >= 0 && s.demotionStreak >= 0 && s.recoverStreak >= 0
  }

  lemma MovedKeepsChain(h: Health, to: HealthState, reason: ReasonCode)
    requires Chains(h.history, Starting, h.state)
    ensures Chains(Moved(h, to, reason).history, Starting, to)
  {
    var moved := Moved(h, to, reason).history;
    assert moved != h.history ==> moved[..|moved| - 1] == h.history;
  }

  /** What an evaluation leaves alone, whatever it decides. */
  lemma AppliedFrame(s: State, nowNs: int, v: Verdict)
    ensures var t := Applied(s, nowNs, v);
            && t.policy == s.policy && t.registry == s.registry && t.estimators == s.estimators
            && t.recoverStreak == s.recoverStreak && t.missWindow == s.missWindow && t.escalation == s.escalation
  {
  }

  lemma EvaluatedFrame(s: State, nowNs: int)
    ensures var t := Evaluated(s, nowNs);
            && t.policy == s.policy && t.registry == s.registry && t.estimators == s.estimators
            && t.recoverStreak == s.recoverStreak && t.missWindow == s.missWindow && t.escalation == s.escalation
  {
    AppliedFrame(s, nowNs, Judge(s, nowNs));
  }

  lemma AppliedKeepsHealth(s: State, nowNs: int, v: Verdict)
    requires HealthInv(s.health)
    ensures HealthInv(Applied(s, nowNs, v).health)
  {
    hide HealthInv;
    match v
    case PinSwitch(_) => MovesKeepHealth(s.health, PinnedProfile);
    case NoneEligible => MovesKeepHealth(s.health, NoEligibleProfile);
    case Startup(_) => MovesKeepHealth(s.health, StartupProfileSelected);
    case Stable => MovesKeepHealth(s.health, ActiveProfileStable);
    case Demotion(_, _) => MovesKeepHealth(s.health, ProfileSwitchDemotion);
    case Promotion(_) => MovesKeepHealth(s.health, ProfileSwitchPromotion);
    case _ =>
  }

  lemma MovesKeepHealth(h: Health, reason: ReasonCode)
    requires HealthInv(h) && reason != NoReason
    ensures HealthInv(SetReady(h, reason)) && HealthInv(SetFailClosed(h, reason)) && HealthInv(SetDegraded(h, reason))
    ensures HealthInv(ClearHold(BeginRecovery(h, reason)))
  {
    MovedKeepsChain(h, Ready, reason);
    MovedKeepsChain(h, FailClosed, reason);
    MovedKeepsChain(h, Degraded, reason);
    MovedKeepsChain(h, Recovering, reason);
  }

  /** Stopping, which nothing in the program asks for, keeps the invariant only without a hold. */
  lemma StoppingKeepsHealthExactly(h: Health, reason: ReasonCode)
    requires HealthInv(h) && reason != NoReason
    ensures HealthInv(SetStopping(h, reason)) <==> !h.hold
  {
    MovedKeepsChain(h, Stopping, reason);
  }

  lemma CountingKeepsHealth(s: State, good: bool)
    requires HealthInv(s.health)
    ensures HealthInv(RecoveryCounted(s, good).health)
  {
    MovesKeepHealth(s.health, RecoveryConfirmed);
  }

  lemma ObservedKeepsHealth(s: State, obs: FrameObservation)
    requires HealthInv(s.health)
    ensures HealthInv(ObservedState(s, obs).health)
  {
    hide HealthInv, RecoveryCounted, WindowAfter;
    MovesKeepHealth(s.health, InputStale);
    MovesKeepHealth(s.health, InferenceFailed);
    if Counted(s, obs) {
      var t := Attributed(s, s.active.value, obs)
        .(missWindow := WindowAfter(s, Missed(s, obs)), escalation := EscalationAfter(s, obs));
      CountingKeepsHealth(t, obs.inferenceOk && !Missed(s, obs));
    }
  }

  lemma CountingFrame(s: State, good: bool)
    ensures var t := RecoveryCounted(s, good);
            t == s.(recoverStreak := t.recoverStreak, health := t.health)
  {
  }

  /** What an observation changes: of the registry only the active profile, and no document field. */
  lemma ObservedFrame(s: State, obs: FrameObservation)
    ensures var t := ObservedState(s, obs);
            && t.policy == s.policy && t.active == s.active && t.pin == s.pin
            && t.activeSinceNs == s.activeSinceNs
            && t.promotionStreak == s.promotionStreak && t.demotionStreak == s.demotionStreak
            && SameDocuments(s.registry, t.registry)
            && t.estimators.Keys == s.estimators.Keys
            && forall id | id in s.registry.profiles && Some(id) != s.active ::
                 t.registry.profiles[id] == s.registry.profiles[id]
  {
    hide RecoveryCounted, WindowAfter, EscalationAfter, Missed;
    if Counted(s, obs) {
      var t := Attributed(s, s.active.value, obs);
      CountingFrame(t.(missWindow := WindowAfter(s, Missed(s, obs)), escalation := EscalationAfter(s, obs)),
                    obs.inferenceOk && !Missed(s, obs));
      assert SameDocuments(s.registry, t.registry);
      assert ObservedState(s, obs).registry == t.registry;
    }
  }

  lemma StepKeepsDocuments(s: State, op: Op)
    ensures SameDocuments(s.registry, Step(s, op).registry)
  {
    match op
    case Evaluate(nowNs) => EvaluatedFrame(s, nowNs);
    case Observe(obs) => ObservedFrame(s, obs);
    case _ =>
  }

  lemma BestIsEligible(s: State, nowNs: int)
    requires RegistryOk(s.registry)
    ensures forall id :: id in EligibleIds(s, s.registry.order, nowNs) <==> EligibleAt(s, id, nowNs)
    ensures EligibleIds(s, s.registry.order, nowNs) != [] ==>
              EligibleAt(s, Best(s.registry.profiles, EligibleIds(s, s.registry.order, nowNs), s.escalation), nowNs)
  {
  }

  predicate Selects(v: Verdict) {
    v.PinSwitch? || v.Startup? || v.Demotion? || v.Promotion?
  }

  lemma SelectionEffect(s: State, nowNs: int, v: Verdict)
    ensures var d := Announced(s, NoSwitch(s, nowNs), v);
            var t := Applied(s, nowNs, v);
            && (d.shouldSwitch <==> Selects(v))
            && (d.reason == ManualPinned <==> v.PinSwitch?)
            && (Selects(v) ==> d.to == Some(v.to) && t.active == Some(v.to) && t.activeSinceNs == nowNs)
            && (!Selects(v) ==> t.activeSinceNs == s.activeSinceNs && (t.active == s.active || t.active.None?))
  {
  }

  lemma ContestTarget(s: State, best: string, nowNs: int)
    requires best in s.registry.profiles
    ensures var v := Contest(s, best, nowNs);
            !v.PinSwitch? && (Selects(v) ==> v.to == best && s.active != Some(best))
  {
  }

  lemma SelectionTarget(s: State, nowNs: int)
    requires RegistryOk(s.registry) && Selects(Judge(s, nowNs))
    ensures var v := Judge(s, nowNs);
            && v.to in s.registry.profiles && s.active != Some(v.to)
            && IsEligible(s.registry.profiles[v.to], s.policy,
                          if v.PinSwitch? then s.registry.profiles[v.to].offlineEnvelopeMs else BoundMs(s, v.to), nowNs)
            && (!v.PinSwitch? ==> EligibleAt(s, v.to, nowNs))
  {
    BestIsEligible(s, nowNs);
    var ids := EligibleIds(s, s.registry.order, nowNs);
    if ids != [] && !PinDecides(s, nowNs) {
      var best := Best(s.registry.profiles, ids, s.escalation);
      ContestTarget(s, best, nowNs);
      assert Judge(s, nowNs) == Contest(s, best, nowNs);
    }
  }

  /** An evaluation either keeps the active profile, drops it, or moves to an eligible one. */
  lemma EvaluatedActive(s: State, nowNs: int)
    requires RegistryOk(s.registry)
    ensures var t := Evaluated(s, nowNs);
            || t.active == s.active
            || t.active.None?
            || (t.active.value in s.registry.profiles && s.registry.profiles[t.active.value].status.Certified?
                && s.registry.profiles[t.active.value].warmed)
  {
    hide Judge, Applied, Announced;
    SelectionEffect(s, nowNs, Judge(s, nowNs));
    if Selects(Judge(s, nowNs)) {
      SelectionTarget(s, nowNs);
    }
  }

  lemma AppliedStreaks(s: State, nowNs: int, v: Verdict)
    requires s.promotionStreak >= 0 && s.demotionStreak >= 0
    ensures Applied(s, nowNs, v).promotionStreak >= 0 && Applied(s, nowNs, v).demotionStreak >= 0
  {
  }

  lemma ObservedStreaks(s: State, obs: FrameObservation)
    requires s.recoverStreak >= 0
    ensures ObservedState(s, obs).recoverStreak >= 0
  {
  }

  lemma EvaluatedKeepsInv(s: State, nowNs: int)
    requires Inv(s)
    ensures Inv(Evaluated(s, nowNs))
  {
    hide Judge, Applied, HealthInv;
    AppliedKeepsHealth(s, nowNs, Judge(s, nowNs));
    AppliedStreaks(s, nowNs, Judge(s, nowNs));
    EvaluatedFrame(s, nowNs);
    EvaluatedActive(s, nowNs);
  }

  lemma ObservedKeepsInv(s: State, obs: FrameObservation)
    requires Inv(s)
    ensures Inv(ObservedState(s, obs))
  {
    hide ObservedState, HealthInv;
    ObservedKeepsHealth(s, obs);
    ObservedFrame(s, obs);
    ObservedStreaks(s, obs);
  }

  lemma StepKeepsInv(s: State, op: Op)
    requires Inv(s)
    ensures Inv(Step(s, op))
  {
    hide Evaluated, ObservedState, HealthInv, PolicyAccepted;
    match op
    case Evaluate(nowNs) => EvaluatedKeepsInv(s, nowNs);
    case Observe(obs) => ObservedKeepsInv(s, obs);
    case RequestRecovery => MovesKeepHealth(s.health, OperatorRecoveryRequest);
    case _ =>
  }

  /** In every run: fail-closed implies the hold, the hold implies fail-closed or degraded, the
      hold is on exactly when it has a reason, the history chains from starting to the present
      state without self-steps, the active profile is registered, certified and warmed, and no
      document field of a profile changes. */
  lemma {:induction false} RunKeepsInv(policy: RuntimePolicy, registry: Registry, ops: seq<Op>)
    requires RegistryOk(registry)
    ensures Inv(Run(Initial(policy, registry), ops))
    ensures SameDocuments(registry, Run(Initial(policy, registry), ops).registry)
  {
    if ops != [] {
      var before := ops[..|ops| - 1];
      RunKeepsInv(policy, registry, before);
      StepKeepsInv(Run(Initial(policy, registry), before), ops[|ops| - 1]);
      StepKeepsDocuments(Run(Initial(policy, registry), before), ops[|ops| - 1]);
    }
  }
}
