/** The controller as the program runs it: fields updated in place, a registry shared with the
    engine, and a map that holds one latency estimator per warmed profile by value. */
module Controllers {
  import opened Common
  import opened Profiles
  import opened Eligibility
  import opened HealthMachines
  import opened LatencyEstimators
  import opened ControllerModel

  class Controller {
    var policy: RuntimePolicy
    const registry: ProfileRegistry
    const health: HealthMachine
    var active: Option<string>
    var estimators: map<string, Estimator>
    var pin: Option<ManualPin>
    var activeSinceNs: int
    var promotionStreak: int
    var demotionStreak: int
    var recoverStreak: int
    var missWindow: seq<bool>
    var escalation: bool

    ghost predicate Valid()
      reads registry
    {
      RegistryOk(registry.View())
    }

    ghost function View(): State
      reads this, registry, health
    {
      State(policy, registry.View(), health.View(), active, estimators, pin, activeSinceNs,
            promotionStreak, demotionStreak, recoverStreak, missWindow, escalation)
    }

    constructor (policy: RuntimePolicy, registry: ProfileRegistry)
      requires RegistryOk(registry.View())
      ensures Valid() && fresh(this) && fresh(health) && this.registry == registry
      ensures View() == Initial(policy, registry.View())
    {
      this.policy := policy;
      this.registry := registry;
      health := new HealthMachine();
      active, estimators, pin := None, map[], None;
      activeSinceNs, promotionStreak, demotionStreak, recoverStreak := 0, 0, 0, 0;
      missWindow, escalation := [], false;
      new;
    }

    method MarkProfileWarmed(id: string)
      requires Valid()
      modifies this`estimators, registry
      ensures Valid()
      ensures View() == MarkedWarmed(old(View()), id)
    {
      if id in registry.profiles {
        registry.profiles := registry.profiles[id := registry.profiles[id].(warmed := true)];
        if id !in estimators {
          estimators := estimators[id := NewEstimator(policy)];
        }
      }
    }

    method ProfileBoundMs(id: string) returns (bound: real)
      requires Valid() && id in registry.profiles
      ensures bound == BoundMs(View(), id)
    {
      bound := registry.profiles[id].offlineEnvelopeMs;
      if id in estimators && estimators[id].values != [] {
        var online := ConservativeBound(estimators[id]);
        bound := RMax(bound, online);
      }
    }

    method ProfileIsEligible(id: string, nowNs: int) returns (eligible: bool)
      requires Valid() && id in registry.profiles
      ensures eligible == EligibleAt(View(), id, nowNs)
    {
      var bound := ProfileBoundMs(id);
      var verdict, _ := EvaluateEligibility(registry.profiles[id], policy, bound, nowNs);
      return verdict;
    }

    method EligibleProfiles(nowNs: int) returns (out: seq<string>)
      requires Valid()
      ensures out == EligibleIds(View(), registry.order, nowNs)
    {
      hide EligibleAt;
      out := [];
      ghost var s := View();
      var order := registry.order;
      for i := 0 to |order|
        invariant View() == s && order == registry.order
        invariant out == EligibleIds(s, order[..i], nowNs)
      {
        var id := order[i];
        assert order[..i + 1][..i] == order[..i];
        var eligible := ProfileIsEligible(id, nowNs);
        if eligible {
          out := out + [id];
        }
      }
      assert order[..|order|] == order;
    }

    method SelectBest(eligible: seq<string>, preferQuality: bool) returns (best: Option<string>)
      requires Valid() && forall id | id in eligible :: id in registry.profiles
      ensures best == if eligible == [] then None else Some(Best(registry.profiles, eligible, preferQuality))
    {
      if eligible == [] {
        return None;
      }
      var b := eligible[0];
      for i := 0 to |eligible|
        invariant b in eligible
        invariant b == if i == 0 then eligible[0] else Best(registry.profiles, eligible[..i], preferQuality)
      {
        assert eligible[..i + 1][..i] == eligible[..i];
        if Better(registry.profiles[eligible[i]], registry.profiles[b], preferQuality) {
          b := eligible[i];
        }
      }
      assert eligible[..|eligible|] == eligible;
      return Some(b);
    }

    method CountMisses() returns (count: int)
      ensures count == CountTrue(missWindow)
    {
      count := 0;
      for i := 0 to |missWindow|
        invariant count == CountTrue(missWindow[..i])
      {
        assert missWindow[..i + 1][..i] == missWindow[..i];
        if missWindow[i] {
          count := count + 1;
        }
      }
      assert missWindow[..|missWindow|] == missWindow;
    }

    method Observe(obs: FrameObservation)
      requires Valid()
      modifies this, registry, health
      ensures Valid()
      ensures View() == ObservedState(old(View()), obs)
    {
      hide Attributed, RecoveryCounted, RegistryOk;
      if obs.sourceStale && policy.failClosedOnStaleInput {
        health.FailClosed(InputStale);
        return;
      }
      if active.None? || active.value !in registry.profiles {
        return;
      }
      Attribute(active.value, obs);

      var miss := obs.latencyMs > policy.deadlineMs;
      missWindow := missWindow + [miss];
      if |missWindow| > Max(0, policy.deadlineMissWindowFrames) {
        missWindow := missWindow[1..];
      }
      if policy.confidenceEscalationEnabled && obs.confidenceSignal >= 0.0 {
        escalation := obs.confidenceSignal < policy.confidenceEscalationThreshold;
      }
      CountRecovery(obs.inferenceOk && !miss);
    }

    method Attribute(id: string, obs: FrameObservation)
      requires Valid() && id in registry.profiles
      modifies this`estimators, registry, health
      ensures Valid()
      ensures View() == Attributed(old(View()), id, obs)
    {
      hide RegistryOk, Observed;
      var p := registry.profiles[id];
      if !obs.inferenceOk {
        UpdateKeepsRegistry(registry.View(), id, p.(healthy := false, failureCount := p.failureCount + 1,
                                                    cooldownUntilNs := obs.nowNs + COOLDOWN_NS));
        registry.profiles := registry.profiles[id := p.(healthy := false, failureCount := p.failureCount + 1,
                                                        cooldownUntilNs := obs.nowNs + COOLDOWN_NS)];
        health.MakeDegraded(InferenceFailed);
      } else {
        UpdateKeepsRegistry(registry.View(), id, p.(healthy := true));
        registry.profiles := registry.profiles[id := p.(healthy := true)];
        if id in estimators {
          estimators := estimators[id := Observed(estimators[id], obs.latencyMs)];
        }
      }
    }

    method CountRecovery(good: bool)
      requires Valid()
      modifies this`recoverStreak, health
      ensures View() == RecoveryCounted(old(View()), good)
    {
      if health.state == Recovering {
        if good {
          recoverStreak := recoverStreak + 1;
          if recoverStreak >= policy.recoverConfirmationFrames {
            health.MakeReady(RecoveryConfirmed);
            recoverStreak := 0;
          }
        } else {
          recoverStreak := 0;
        }
      }
    }

    method EvaluateSwitch(nowNs: int) returns (d: SwitchDecision)
      requires Valid()
      modifies this, health
      ensures Valid()
      ensures View() == Evaluated(old(View()), nowNs)
      ensures d == Decision(old(View()), nowNs)
    {
      ghost var s := View();
      var decided;
      decided, d := FollowPin(nowNs);
      if decided {
        return;
      }
      var eligible := EligibleProfiles(nowNs);
      SameEligible(s, View(), registry.order, nowNs);
      if eligible == [] {
        if policy.failClosedOnNoEligibleProfile {
          health.FailClosed(NoEligibleProfile);
        }
        active := None;
        return SwitchDecision(false, None, None, NoEligible, NothingEligible);
      }
      var selected := SelectBest(eligible, escalation);
      d := Settle(selected.value, active.Some? && active.value in eligible, nowNs, d);
      IgnoresExpiredPin(s, selected.value, nowNs);
    }

    /** The pin part of an evaluation: drops an expired pin, follows a live one if it can. */
    method FollowPin(nowNs: int) returns (decided: bool, d: SwitchDecision)
      requires Valid()
      modifies this, health
      ensures Valid()
      ensures decided == PinDecides(old(View()), nowNs)
      ensures decided ==> View() == Evaluated(old(View()), nowNs) && d == Decision(old(View()), nowNs)
      ensures !decided ==> View() == WithoutExpiredPin(old(View()), nowNs) && d == NoSwitch(old(View()), nowNs)
    {
      d := SwitchDecision(false, None, None, StartupSelect, NoEvidence);
      if pin.Some? {
        if pin.value.expiresNs <= nowNs {
          pin := None;
          d := d.(reason := PinExpired);
        } else if pin.value.profileId in registry.profiles {
          var pinned := pin.value.profileId;
          var p := registry.profiles[pinned];
          var eligible, _ := EvaluateEligibility(p, policy, p.offlineEnvelopeMs, nowNs);
          if eligible {
            if active != Some(pinned) {
              d := SwitchDecision(true, active, Some(pinned), ManualPinned, ManualPinActive);
              active := Some(pinned);
              activeSinceNs := nowNs;
              health.MakeReady(PinnedProfile);
            }
            return true, d;
          }
        }
      }
      return false, d;
    }

    /** The last part of an evaluation: the best eligible profile against the active one. */
    method Settle(best: string, activeEligible: bool, nowNs: int, base: SwitchDecision) returns (d: SwitchDecision)
      requires Valid() && best in registry.profiles
      requires !PinHasExpired(View(), nowNs)
      requires active.Some? ==> activeEligible == EligibleAt(View(), active.value, nowNs)
      modifies this, health
      ensures Valid()
      ensures var v := Contest(old(View()), best, nowNs);
              View() == Applied(old(View()), nowNs, v) && d == Announced(old(View()), base, v)
    {
      hide RegistryOk, IsEligible;
      if active.None? {
        MakeActive(best, nowNs);
        health.MakeReady(StartupProfileSelected);
        return SwitchDecision(true, None, Some(best), StartupSelect, InitialSelection);
      }
      if active.value == best {
        KeepActive();
        return base;
      }
      var current := active.value;
      var stillEligible := current in registry.profiles && activeEligible;
      var missCount := CountMisses();
      var deadlineRisk := missCount >= policy.deadlineMissThreshold;
      var dwellMs := (nowNs - activeSinceNs) as real / 1_000_000.0;
      var dwellOk := dwellMs >= policy.minimumDwellMs;

      var demote := deadlineRisk || !stillEligible
                    || (current in registry.profiles && !registry.profiles[current].healthy);
      if demote {
        d := CountDemotion(best, deadlineRisk, nowNs, base);
      } else if dwellOk && registry.profiles[best].utility > registry.profiles[current].utility {
        d := CountPromotion(best, nowNs, base);
      } else {
        promotionStreak := 0;
        d := base;
      }
    }

    method MakeActive(id: string, nowNs: int)
      modifies this`active, this`activeSinceNs
      ensures View() == old(View()).(active := Some(id), activeSinceNs := nowNs)
    {
      active := Some(id);
      activeSinceNs := nowNs;
    }

    method KeepActive()
      modifies this`promotionStreak, this`demotionStreak, health
      ensures View() == old(View()).(promotionStreak := 0, demotionStreak := 0,
                                     health := Stabilised(old(health.View())))
    {
      promotionStreak := 0;
      demotionStreak := 0;
      if health.state == HealthState.FailClosed {
      } else if health.state != Ready && health.state != Recovering {
        health.MakeReady(ActiveProfileStable);
      }
    }

    method CountDemotion(best: string, deadlineRisk: bool, nowNs: int, base: SwitchDecision) returns (d: SwitchDecision)
      requires Valid() && !PinHasExpired(View(), nowNs) && active.Some?
      modifies this`active, this`activeSinceNs, this`promotionStreak, this`demotionStreak, health
      ensures var v := if old(demotionStreak) + 1 >= policy.demotionConfirmationFrames
                       then Demotion(best, deadlineRisk) else DemotionPending;
              View() == Applied(old(View()), nowNs, v) && d == Announced(old(View()), base, v)
    {
      hide RegistryOk;
      d := base;
      demotionStreak := demotionStreak + 1;
      promotionStreak := 0;
      if demotionStreak >= policy.demotionConfirmationFrames {
        d := SwitchDecision(true, active, Some(best),
                            if deadlineRisk then DeadlineRiskDemotion else ProfileUnhealthy, DemotionConfirmed);
        MakeActive(best, nowNs);
        demotionStreak := 0;
        health.MakeDegraded(ProfileSwitchDemotion);
      }
    }

    method CountPromotion(best: string, nowNs: int, base: SwitchDecision) returns (d: SwitchDecision)
      requires Valid() && !PinHasExpired(View(), nowNs) && active.Some?
      modifies this`active, this`activeSinceNs, this`promotionStreak, this`demotionStreak, health
      ensures var v := if old(promotionStreak) + 1 >= policy.promotionConfirmationFrames
                       then Promotion(best) else PromotionPending;
              View() == Applied(old(View()), nowNs, v) && d == Announced(old(View()), base, v)
    {
      hide RegistryOk;
      d := base;
      promotionStreak := promotionStreak + 1;
      demotionStreak := 0;
      if promotionStreak >= policy.promotionConfirmationFrames {
        d := SwitchDecision(true, active, Some(best),
                            if escalation then ConfidenceEscalation else QualityPromotion, PromotionConfirmed);
        MakeActive(best, nowNs);
        promotionStreak := 0;
        health.MakeReady(ProfileSwitchPromotion);
      }
    }

    method PinProfile(id: string, nowNs: int, seconds: int) returns (ok: bool)
      requires Valid()
      modifies this
      ensures Valid()
      ensures ok == PinAccepted(old(View()), id, seconds)
      ensures View() == PinRequested(old(View()), id, nowNs, seconds)
    {
      ok := true;
      if seconds <= 0 || seconds > policy.manualPinMaximumSeconds {
        return false;
      }
      if id !in registry.profiles {
        return false;
      }
      pin := Some(ManualPin(id, nowNs + seconds * NS_PER_SECOND));
    }

    method Unpin()
      requires Valid()
      modifies this
      ensures Valid()
      ensures View() == old(View()).(pin := None)
    {
      pin := None;
    }

    method Recover() returns (ok: bool)
      requires Valid()
      modifies this, registry, health
      ensures Valid()
      ensures ok == RecoveryAccepted(old(View()))
      ensures View() == RecoveryRequested(old(View()))
    {
      if health.state != HealthState.FailClosed && health.state != Degraded {
        return false;
      }
      recoverStreak := 0;
      health.StartRecovery(OperatorRecoveryRequest);
      health.ReleaseHold();
      HealProfiles();
      return true;
    }

    /** Gives every certified profile a clean record. */
    method HealProfiles()
      requires Valid()
      modifies registry
      ensures Valid() && registry.order == old(registry.order)
      ensures registry.profiles == map id | id in old(registry.profiles) :: Healed(old(registry.profiles[id]))
    {
      ghost var before := registry.profiles;
      for i := 0 to |registry.order|
        invariant registry.order == old(registry.order) && registry.profiles.Keys == before.Keys
        invariant forall j | 0 <= j < i :: registry.profiles[registry.order[j]] == Healed(before[registry.order[j]])
        invariant forall j | i <= j < |registry.order| ::
                    registry.profiles[registry.order[j]] == before[registry.order[j]]
      {
        var id := registry.order[i];
        var p := registry.profiles[id];
        if p.status.Certified? {
          registry.profiles := registry.profiles[id := p.(healthy := true, failureCount := 0, cooldownUntilNs := 0)];
        }
      }
    }

    method ChangePolicy(next: RuntimePolicy) returns (ok: bool)
      requires Valid()
      modifies this
      ensures Valid()
      ensures ok == PolicyAccepted(next)
      ensures View() == PolicyUpdated(old(View()), next)
    {
      ok := PolicyAccepted(next);
      if !ok {
        return;
      }
      policy := next;
      missWindow := [];
    }
  }

  lemma UpdateKeepsRegistry(r: Registry, id: string, p: Profile)
    requires RegistryOk(r) && id in r.profiles
    ensures RegistryOk(r.(profiles := r.profiles[id := p]))
  {
  }

  /** Eligibility does not look at the pin. */
  lemma {:induction false} SameEligible(s: State, t: State, ids: seq<string>, nowNs: int)
    requires t == s.(pin := t.pin)
    ensures EligibleIds(s, ids, nowNs) == EligibleIds(t, ids, nowNs)
  {
    if ids != [] {
      SameEligible(s, t, ids[..|ids| - 1], nowNs);
    }
  }

  /** Once an expired pin is dropped, nothing else in an evaluation depends on it. */
  lemma IgnoresExpiredPin(s: State, best: string, nowNs: int)
    requires best in s.registry.profiles
    ensures var t := WithoutExpiredPin(s, nowNs);
            var v := Contest(s, best, nowNs);
            && Contest(t, best, nowNs) == v
            && Applied(t, nowNs, v) == Applied(s, nowNs, v)
            && forall base :: Announced(t, base, v) == Announced(s, base, v)
  {
    var t := WithoutExpiredPin(s, nowNs);
    hide IsEligible;
    assert s.active.Some? ==> EligibleAt(s, s.active.value, nowNs) == EligibleAt(t, s.active.value, nowNs);
  }
}
