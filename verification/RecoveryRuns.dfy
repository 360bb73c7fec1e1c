/** When the control hold is released, when a recovery is confirmed, and what the two sliding
    windows contain. */
module RecoveryRuns {
  import opened Common
  import opened Profiles
  import opened Eligibility
  import opened HealthMachines
  import opened LatencyEstimators
  import opened ControllerModel
  import opened ControllerRuns
  import opened SwitchRuns

  // The control hold

  /** The operations that release the hold: a recovery request, a switch other than a demotion,
      and a stable evaluation in the degraded state. */
  predicate Releases(s: State, op: Op) {
    match op
    case RequestRecovery => true
    case Evaluate(nowNs) =>
      (match Judge(s, nowNs)
       case PinSwitch(_) => true
       case Startup(_) => true
       case Promotion(_) => true
       case Stable => s.health.state == Degraded
       case _ => false)
    case _ => false
  }

  lemma HoldReleasedExactly(s: State, op: Op)
    requires Inv(s) && s.health.hold
    ensures !Step(s, op).health.hold <==> Releases(s, op)
  {
    match op
    case Evaluate(nowNs) => HoldAfterVerdict(s, nowNs, Judge(s, nowNs));
    case Observe(obs) => ObservationKeepsHold(s, obs);
    case _ =>
  }

  lemma HoldAfterVerdict(s: State, nowNs: int, v: Verdict)
    requires Inv(s) && s.health.hold
    ensures !Applied(s, nowNs, v).health.hold <==>
            v.PinSwitch? || v.Startup? || v.Promotion? || (v.Stable? && s.health.state == Degraded)
  {
  }

  lemma ObservationKeepsHold(s: State, obs: FrameObservation)
    requires Inv(s) && s.health.hold
    ensures ObservedState(s, obs).health.hold
  {
  }

  /** In fail-closed, the hold stays until a recovery request or a switch; only a failed
      inference or a demotion leaves the state without releasing the hold. */
  lemma FailClosedStays(s: State, op: Op)
    requires Inv(s) && s.health.state == FailClosed
    requires !op.RequestRecovery? && !Switches(s, op) && !(op.Observe? && !op.obs.inferenceOk)
    ensures Step(s, op).health.state == FailClosed && Step(s, op).health.hold
  {
    match op
    case Evaluate(nowNs) =>
      SelectionEffect(s, nowNs, Judge(s, nowNs));
      StaysClosed(s, nowNs, Judge(s, nowNs));
    case Observe(obs) =>
      assert Counted(s, obs) ==> ObservedState(s, obs).health == s.health;
    case _ =>
  }

  lemma StaysClosed(s: State, nowNs: int, v: Verdict)
    requires Inv(s) && s.health.state == FailClosed && !Selects(v)
    ensures Applied(s, nowNs, v).health.state == FailClosed && Applied(s, nowNs, v).health.hold
  {
  }

  // A controller driven by hand, without the engine's gate

  lemma OnlyProfile(s: State, id: string, nowNs: int)
    requires s.registry.order == [id] && EligibleAt(s, id, nowNs) && s.pin.None?
    ensures s.active.None? ==> Judge(s, nowNs) == Startup(id)
    ensures s.active == Some(id) ==> Judge(s, nowNs) == Stable
  {
    var ids := s.registry.order;
    assert ids[..0] == [];
    assert EligibleIds(s, ids, nowNs) == [id];
  }

  lemma FailureWhileHeld(s: State, id: string, obs: FrameObservation)
    requires s.active == Some(id) && id in s.registry.profiles && s.health.state == FailClosed && s.health.hold
    requires !obs.inferenceOk && !obs.sourceStale
    ensures var t := ObservedState(s, obs);
            var p := s.registry.profiles[id];
            && t.health.state == Degraded && t.health.hold
            && t == s.(health := t.health, missWindow := t.missWindow, escalation := t.escalation,
                       registry := s.registry.(profiles := s.registry.profiles[id :=
                         p.(healthy := false, failureCount := p.failureCount + 1, cooldownUntilNs := obs.nowNs + COOLDOWN_NS)]))
  {
  }

  /** From any fail-closed state whose only registered profile is eligible and active: a failed
      observation moves to degraded, and a stable evaluation after the cooldown releases the hold
      with neither a recovery request nor a switch. Only the engine's gate, which observes nothing
      while the hold is on, rules this out. */
  lemma HoldCanSlipWithoutEngine(s: State, id: string, obs: FrameObservation)
    requires Inv(s) && s.registry.order == [id] && s.active == Some(id) && s.pin.None?
    requires s.health.state == FailClosed && EligibleAt(s, id, obs.nowNs)
    requires s.registry.profiles[id].failureCount + 1 < s.policy.maxTransientFailures
    requires !obs.inferenceOk && !obs.sourceStale && obs.nowNs + COOLDOWN_NS != INT64_MAX
    ensures var t := ObservedState(s, obs);
            var nowNs := obs.nowNs + COOLDOWN_NS;
            s.health.hold && t.health.hold && !Decision(t, nowNs).shouldSwitch && !Evaluated(t, nowNs).health.hold
  {
    hide ObservedState, Evaluated, Decision;
    FailureWhileHeld(s, id, obs);
    var t := ObservedState(s, obs);
    StillEligible(s, t, id, obs.nowNs);
    ObservedKeepsInv(s, obs);
    StableReleases(t, id, obs.nowNs + COOLDOWN_NS);
  }

  lemma StillEligible(s: State, t: State, id: string, nowNs: int)
    requires EligibleAt(s, id, nowNs) && id in t.registry.profiles
    requires t.policy == s.policy && t.estimators == s.estimators
    requires var p := s.registry.profiles[id];
             t.registry.profiles[id]
             == p.(healthy := false, failureCount := p.failureCount + 1, cooldownUntilNs := nowNs + COOLDOWN_NS)
    requires s.registry.profiles[id].failureCount + 1 < s.policy.maxTransientFailures
    requires nowNs + COOLDOWN_NS != INT64_MAX
    ensures EligibleAt(t, id, nowNs + COOLDOWN_NS)
  {
    assert BoundMs(t, id) == BoundMs(s, id);
  }

  lemma StableReleases(s: State, id: string, nowNs: int)
    requires Inv(s) && s.registry.order == [id] && s.active == Some(id) && s.pin.None?
    requires EligibleAt(s, id, nowNs) && s.health.hold && s.health.state == Degraded
    ensures !Decision(s, nowNs).shouldSwitch && !Evaluated(s, nowNs).health.hold
  {
    OnlyProfile(s, id, nowNs);
    SelectionEffect(s, nowNs, Stable);
    HoldAfterVerdict(s, nowNs, Stable);
  }

  // Recovery

  /** A counted observation is good when the inference succeeded within the deadline. */
  predicate Good(s: State, obs: FrameObservation) {
    obs.inferenceOk && !Missed(s, obs)
  }

  /** How many of the latest counted observations of a run were good, with no other in between. */
  ghost function GoodStreak(s: State, ops: seq<Op>): nat {
    if ops == [] then 0
    else
      var before, op := ops[..|ops| - 1], ops[|ops| - 1];
      if op.Observe? && Counted(Run(s, before), op.obs) then
        if Good(Run(s, before), op.obs) then GoodStreak(s, before) + 1 else 0
      else
        GoodStreak(s, before)
  }

  ghost predicate StaysRecovering(s: State, ops: seq<Op>) {
    forall i | 0 <= i <= |ops| :: Run(s, ops[..i]).health.state == Recovering
  }

  ghost predicate FixedPolicy(ops: seq<Op>) {
    forall i | 0 <= i < |ops| :: !ops[i].UpdatePolicy?
  }

  lemma {:induction false} StreakCounts(r: State, ops: seq<Op>)
    requires r.health.state == Recovering && r.recoverStreak == 0
    requires StaysRecovering(r, ops) && FixedPolicy(ops)
    ensures var t := Run(r, ops);
            && t.policy == r.policy && t.recoverStreak == GoodStreak(r, ops)
            && GoodStreak(r, ops) < Max(1, r.policy.recoverConfirmationFrames)
  {
    if ops != [] {
      var before := ops[..|ops| - 1];
      forall i | 0 <= i <= |before| ensures Run(r, before[..i]).health.state == Recovering {
        assert before[..i] == ops[..i];
      }
      StreakCounts(r, before);
      assert ops[..|ops|] == ops;
      StreakStep(Run(r, before), ops[|ops| - 1]);
    }
  }

  lemma StreakStep(s: State, op: Op)
    requires s.health.state == Recovering && Step(s, op).health.state == Recovering && !op.UpdatePolicy?
    requires 0 <= s.recoverStreak < Max(1, s.policy.recoverConfirmationFrames)
    ensures var t := Step(s, op);
            && t.policy == s.policy
            && t.recoverStreak == (if op.Observe? && Counted(s, op.obs)
                                   then if Good(s, op.obs) then s.recoverStreak + 1 else 0
                                   else s.recoverStreak)
            && t.recoverStreak < Max(1, s.policy.recoverConfirmationFrames)
  {
    match op
    case Evaluate(nowNs) => EvaluatedFrame(s, nowNs);
    case Observe(obs) => if Counted(s, obs) { RecoveringObservation(s, obs); }
    case _ =>
  }

  lemma RecoveringObservation(s: State, obs: FrameObservation)
    requires s.health.state == Recovering && Counted(s, obs)
    ensures var t := ObservedState(s, obs);
            && t.policy == s.policy
            && (!obs.inferenceOk ==> t.health.state == Degraded)
            && (obs.inferenceOk && Missed(s, obs) ==> t.health == s.health && t.recoverStreak == 0)
            && (Good(s, obs) && s.recoverStreak + 1 < s.policy.recoverConfirmationFrames ==>
                  t.health == s.health && t.recoverStreak == s.recoverStreak + 1)
            && (Good(s, obs) && s.recoverStreak + 1 >= s.policy.recoverConfirmationFrames ==>
                  t.health == SetReady(s.health, RecoveryConfirmed))
  {
  }

  /** After a recovery request, under a fixed policy and while the controller is still recovering,
      the next observation confirms the recovery exactly when it is the
      max(1, recover_confirmation_frames)-th consecutive good one since the request. A deadline
      miss starts the count again and a failed inference leaves the recovery. */
  lemma RecoveryConfirmedExactly(s: State, ops: seq<Op>, obs: FrameObservation)
    requires RecoveryAccepted(s)
    requires StaysRecovering(RecoveryRequested(s), ops) && FixedPolicy(ops)
    ensures var r := RecoveryRequested(s);
            var t := Run(r, ops);
            var u := ObservedState(t, obs);
            && (u.health == SetReady(t.health, RecoveryConfirmed) <==>
                  Counted(t, obs) && GoodStreak(r, ops + [Observe(obs)]) == Max(1, s.policy.recoverConfirmationFrames))
            && (Counted(t, obs) && !obs.inferenceOk ==> u.health.state == Degraded)
            && (Counted(t, obs) && obs.inferenceOk && Missed(t, obs) ==>
                  u.health.state == Recovering && GoodStreak(r, ops + [Observe(obs)]) == 0)
  {
    var r := RecoveryRequested(s);
    assert ops[..0] == [];
    assert Run(r, ops[..0]).health.state == Recovering;
    StreakCounts(r, ops);
    var all := ops + [Observe(obs)];
    assert all[..|all| - 1] == ops;
    assert ops[..|ops|] == ops;
    if Counted(Run(r, ops), obs) {
      RecoveringObservation(Run(r, ops), obs);
    }
  }

  /** The recovering state was entered by the accepted request at `k` and has lasted since. */
  ghost predicate RecoveringSince(s: State, ops: seq<Op>, k: nat) {
    && k < |ops| && ops[k].RequestRecovery? && RecoveryAccepted(Run(s, ops[..k]))
    && forall i | k < i <= |ops| :: Run(s, ops[..i]).health.state == Recovering
  }

  lemma EntersRecovering(s: State, op: Op)
    requires s.health.state != Recovering && Step(s, op).health.state == Recovering
    ensures op.RequestRecovery? && RecoveryAccepted(s)
  {
    match op
    case Evaluate(nowNs) => NeverRecovers(s, nowNs, Judge(s, nowNs));
    case _ =>
  }

  lemma NeverRecovers(s: State, nowNs: int, v: Verdict)
    requires s.health.state != Recovering
    ensures Applied(s, nowNs, v).health.state != Recovering
  {
  }

  /** In every run, whoever finds the controller recovering finds the request behind it. */
  lemma {:induction false} RecoveringHasRequest(s: State, ops: seq<Op>) returns (k: nat)
    requires s.health.state != Recovering && Run(s, ops).health.state == Recovering
    ensures RecoveringSince(s, ops, k)
  {
    hide Step, RecoveryAccepted;
    var before := ops[..|ops| - 1];
    assert ops[..|ops|] == ops;
    if Run(s, before).health.state == Recovering {
      k := RecoveringHasRequest(s, before);
      assert before[..k] == ops[..k];
      forall i | k < i <= |ops| ensures Run(s, ops[..i]).health.state == Recovering {
        assert i <= |before| ==> before[..i] == ops[..i];
      }
    } else {
      EntersRecovering(Run(s, before), ops[|ops| - 1]);
      k := |ops| - 1;
    }
  }

  lemma GetsReadyByRecovery(s: State, obs: FrameObservation)
    requires s.health.state != Ready && ObservedState(s, obs).health.state == Ready
    ensures s.health.state == Recovering
  {
  }

  /** In every run, an observation makes the controller ready only out of a recovery. Under the
      policy in force since its request, it does so exactly when it is the
      max(1, recover_confirmation_frames)-th consecutive good one since then. */
  lemma RecoveryConfirmedInEveryRun(policy: RuntimePolicy, registry: Registry, ops: seq<Op>, obs: FrameObservation)
    returns (k: nat)
    ensures var s := Initial(policy, registry);
            var t := Run(s, ops);
            var u := ObservedState(t, obs);
            && (t.health.state != Ready && u.health.state == Ready ==> t.health.state == Recovering)
            && (t.health.state == Recovering ==>
                  && RecoveringSince(s, ops, k)
                  && (FixedPolicy(ops[k + 1..]) ==>
                        (u.health.state == Ready <==>
                           Counted(t, obs)
                           && GoodStreak(Run(s, ops[..k + 1]), ops[k + 1..] + [Observe(obs)])
                              == Max(1, t.policy.recoverConfirmationFrames))))
  {
    hide Step, Counted, GoodStreak, RecoveryRequested, ObservedState, RecoveryAccepted;
    k := 0;
    var s := Initial(policy, registry);
    var t := Run(s, ops);
    if t.health.state != Ready && ObservedState(t, obs).health.state == Ready {
      GetsReadyByRecovery(t, obs);
    }
    if t.health.state == Recovering {
      k := RecoveringHasRequest(s, ops);
      if FixedPolicy(ops[k + 1..]) {
        ConfirmedSince(s, ops, k, obs);
      }
    }
  }

  lemma ConfirmedSince(s: State, ops: seq<Op>, k: nat, obs: FrameObservation)
    requires RecoveringSince(s, ops, k) && FixedPolicy(ops[k + 1..])
    ensures var t := Run(s, ops);
            var u := ObservedState(t, obs);
            u.health.state == Ready <==>
              Counted(t, obs) && GoodStreak(Run(s, ops[..k + 1]), ops[k + 1..] + [Observe(obs)])
                                 == Max(1, t.policy.recoverConfirmationFrames)
  {
    hide Counted, GoodStreak, ObservedState, RecoveryAccepted;
    var before, after := Run(s, ops[..k]), ops[k + 1..];
    var r := Run(s, ops[..k + 1]);
    RunPrefix(s, ops, k);
    assert r == RecoveryRequested(before);
    forall i | 0 <= i <= |after| ensures Run(r, after[..i]) == Run(s, ops[..k + 1 + i]) {
      assert ops[..k + 1] + after[..i] == ops[..k + 1 + i];
      RunSplit(s, ops[..k + 1], after[..i]);
    }
    assert after[..|after|] == after && ops[..k + 1 + |after|] == ops;
    assert StaysRecovering(r, after);
    RecoveryConfirmedExactly(before, after, obs);
    PolicyStays(before, after);
    ReadyMeansConfirmed(Run(s, ops), obs);
  }

  lemma PolicyStays(s: State, ops: seq<Op>)
    requires RecoveryAccepted(s) && FixedPolicy(ops) && StaysRecovering(RecoveryRequested(s), ops)
    ensures Run(RecoveryRequested(s), ops).policy == s.policy
  {
    assert ops[..0] == [];
    assert Run(RecoveryRequested(s), ops[..0]).health.state == Recovering;
    StreakCounts(RecoveryRequested(s), ops);
  }

  lemma ReadyMeansConfirmed(s: State, obs: FrameObservation)
    requires s.health.state == Recovering
    ensures ObservedState(s, obs).health.state == Ready <==>
            ObservedState(s, obs).health == SetReady(s.health, RecoveryConfirmed)
  {
  }

  // The deadline-miss window

  /** For each counted observation since the last accepted policy update, whether it missed the
      deadline. */
  ghost function Misses(s: State, ops: seq<Op>): seq<bool> {
    if ops == [] then []
    else
      var before, op := ops[..|ops| - 1], ops[|ops| - 1];
      if op.UpdatePolicy? && PolicyAccepted(op.policy) then []
      else if op.Observe? && Counted(Run(s, before), op.obs) then
        Misses(s, before) + [Missed(Run(s, before), op.obs)]
      else
        Misses(s, before)
  }

  lemma WindowStep(s: State, op: Op)
    ensures Step(s, op).missWindow == if op.UpdatePolicy? && PolicyAccepted(op.policy) then []
                                      else if op.Observe? && Counted(s, op.obs) then WindowAfter(s, Missed(s, op.obs))
                                      else s.missWindow
    ensures (op.UpdatePolicy? && PolicyAccepted(op.policy)) || Step(s, op).policy == s.policy
  {
    match op
    case Evaluate(nowNs) => EvaluatedFrame(s, nowNs);
    case _ =>
  }

  lemma LastOfNone(policy: RuntimePolicy)
    ensures LastN<bool>([], Max(0, policy.deadlineMissWindowFrames)) == []
  {
  }

  lemma WindowSlides(s: State, misses: seq<bool>, miss: bool)
    requires s.missWindow == LastN(misses, Max(0, s.policy.deadlineMissWindowFrames))
    ensures WindowAfter(s, miss) == LastN(misses + [miss], Max(0, s.policy.deadlineMissWindowFrames))
  {
  }

  /** The window holds the last W counted observations since the last policy update, and the
      deadline is at risk exactly when enough of those missed it. */
  lemma {:induction false} MissWindowIsLastCounted(policy: RuntimePolicy, registry: Registry, ops: seq<Op>)
    ensures var s := Initial(policy, registry);
            var t := Run(s, ops);
            var window := LastN(Misses(s, ops), Max(0, t.policy.deadlineMissWindowFrames));
            && t.missWindow == window
            && (DeadlineRisk(t) <==> CountTrue(window) >= t.policy.deadlineMissThreshold)
  {
    hide Step, Counted, Missed, LastN, WindowAfter, CountTrue, PolicyAccepted;
    if ops == [] {
      LastOfNone(policy);
    } else {
      var before := ops[..|ops| - 1];
      MissWindowIsLastCounted(policy, registry, before);
      var s := Run(Initial(policy, registry), before);
      WindowStep(s, ops[|ops| - 1]);
      LastOfNone(Step(s, ops[|ops| - 1]).policy);
      if ops[|ops| - 1].Observe? {
        WindowSlides(s, Misses(Initial(policy, registry), before), Missed(s, ops[|ops| - 1].obs));
      }
    }
  }

  // The latency samples

  /** The latencies of the successful observations attributed to `id` since it was first warmed. */
  ghost function Samples(s: State, ops: seq<Op>, id: string): seq<real> {
    if ops == [] then []
    else
      var before, op := ops[..|ops| - 1], ops[|ops| - 1];
      var t := Run(s, before);
      if op.Observe? && id in t.estimators && Counted(t, op.obs) && t.active == Some(id) && op.obs.inferenceOk then
        Samples(s, before, id) + [op.obs.latencyMs]
      else
        Samples(s, before, id)
  }

  lemma EstimatorStep(s: State, op: Op, id: string)
    requires id in s.estimators
    ensures var t := Step(s, op);
            && id in t.estimators
            && t.estimators[id] == if op.Observe? && Counted(s, op.obs) && s.active == Some(id) && op.obs.inferenceOk
                                   then Observed(s.estimators[id], op.obs.latencyMs) else s.estimators[id]
  {
    match op
    case Evaluate(nowNs) => EvaluatedFrame(s, nowNs);
    case _ =>
  }

  lemma NewEstimatorStep(s: State, op: Op, id: string)
    requires id !in s.estimators && id in Step(s, op).estimators
    ensures op == MarkWarmed(id) && Step(s, op).estimators[id] == NewEstimator(s.policy)
  {
    match op
    case Evaluate(nowNs) => EvaluatedFrame(s, nowNs);
    case _ =>
  }

  /** The estimator of a profile holds the last max(window, 8) of its own samples, whatever was
      observed of other profiles and whichever policies came later. */
  lemma {:induction false} EstimatorHoldsLastSamples(policy: RuntimePolicy, registry: Registry, ops: seq<Op>, id: string)
    ensures var s := Initial(policy, registry);
            var t := Run(s, ops);
            if id in t.estimators then
              t.estimators[id].window >= 8 && t.estimators[id].values == LastN(Samples(s, ops, id), t.estimators[id].window)
            else
              Samples(s, ops, id) == []
  {
    hide Step, Counted;
    if ops != [] {
      var s, before := Initial(policy, registry), ops[..|ops| - 1];
      EstimatorHoldsLastSamples(policy, registry, before, id);
      if id in Run(s, before).estimators {
        EstimatorStep(Run(s, before), ops[|ops| - 1], id);
      } else if id in Run(s, ops).estimators {
        NewEstimatorStep(Run(s, before), ops[|ops| - 1], id);
      }
    }
  }
}
