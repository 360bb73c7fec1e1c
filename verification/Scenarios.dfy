/** Runs from the initial state that reach the situations in which a promise ends. */
module Scenarios {
  import opened Common
  import opened Sorting
  import opened Profiles
  import opened Eligibility
  import opened HealthMachines
  import opened LatencyEstimators
  import opened ControllerModel
  import opened ControllerRuns
  import opened SwitchRuns
  import opened RecoveryRuns
  import opened EngineModel
  import opened EngineRuns

  // One profile

  /** A cold, healthy, certified profile that meets the policy offline. */
  predicate Suits(p: Profile, policy: RuntimePolicy) {
    && p.status.Certified? && !p.warmed && p.healthy && p.failureCount == 0 && p.cooldownUntilNs == 0
    && p.certifiedQuality >= policy.minimumQualityValue
    && p.offlineEnvelopeMs <= policy.deadlineMs
    && p.offlineEnvelopeMs * policy.offlineEnvelopeWeight <= policy.deadlineMs
  }

  function One(id: string, p: Profile): Registry {
    Registry([id], map[id := p])
  }

  /** The only profile has been warmed and selected at time zero. */
  function Started(policy: RuntimePolicy, id: string, p: Profile): State {
    Initial(policy, One(id, p.(warmed := true)))
      .(active := Some(id), estimators := map[id := NewEstimator(policy)],
        health := SetReady(INITIAL, StartupProfileSelected))
  }

  lemma StartUp(policy: RuntimePolicy, id: string, p: Profile, ops: seq<Op>)
    requires id != "" && Suits(p, policy) && |ops| >= 2 && ops[0] == MarkWarmed(id) && ops[1] == Evaluate(0)
    ensures Run(Initial(policy, One(id, p)), ops[..2]) == Started(policy, id, p)
  {
    hide Step, Started, Suits;
    var s := Initial(policy, One(id, p));
    assert Run(s, ops[..0]) == s;
    RunPrefix(s, ops, 0);
    RunPrefix(s, ops, 1);
    FirstSteps(policy, id, p);
  }

  lemma FirstSteps(policy: RuntimePolicy, id: string, p: Profile)
    requires id != "" && Suits(p, policy)
    ensures Step(Step(Initial(policy, One(id, p)), MarkWarmed(id)), Evaluate(0)) == Started(policy, id, p)
  {
    hide Judge;
    var t := MarkedWarmed(Initial(policy, One(id, p)), id);
    assert t.registry == One(id, p.(warmed := true)) && t.estimators == map[id := NewEstimator(policy)];
    OnlyProfile(t, id, 0);
  }

  lemma StepIs(s: State, op: Op)
    ensures op.Observe? ==> Step(s, op) == ObservedState(s, op.obs)
    ensures op.Evaluate? ==> Step(s, op) == Evaluated(s, op.nowNs) && Switches(s, op) == Decision(s, op.nowNs).shouldSwitch
    ensures op.RequestPin? ==> Step(s, op) == PinRequested(s, op.id, op.nowNs, op.seconds)
  {
  }

  // The hold can slip in a run of the controller alone

  function Observation(nowNs: int, ok: bool, stale: bool): FrameObservation {
    FrameObservation(nowNs, 0.0, ok, -1.0, stale)
  }

  function SlipOps(id: string): seq<Op> {
    [MarkWarmed(id), Evaluate(0), ControllerModel.Observe(Observation(0, true, true)),
     ControllerModel.Observe(Observation(0, false, false)), Evaluate(COOLDOWN_NS)]
  }

  /** Warm up, select, observe a stale frame, observe a failed one, evaluate: the stale frame raises
      the hold, and the last evaluation, which switches nothing, releases it. No recovery was
      requested. */
  lemma HoldSlipIsReachable(policy: RuntimePolicy, id: string, p: Profile)
    requires id != "" && Suits(p, policy) && policy.failClosedOnStaleInput && policy.maxTransientFailures > 1
    ensures var s, ops := Initial(policy, One(id, p)), SlipOps(id);
            && Run(s, ops[..3]).health.state == FailClosed && Run(s, ops[..4]).health.hold
            && !Switches(Run(s, ops[..4]), ops[4]) && !Run(s, ops).health.hold
  {
    hide Step, Run, Started, ObservedState, Evaluated, Decision, Switches, Inv, Suits;
    var s, ops := Initial(policy, One(id, p)), SlipOps(id);
    StartUp(policy, id, p, ops);
    StaleRaises(policy, id, p);
    RunPrefix(s, ops, 2);
    RunPrefix(s, ops, 3);
    RunPrefix(s, ops, 4);
    assert ops[..5] == ops;
    var held, failed := Run(s, ops[..3]), Run(s, ops[..4]);
    StepIs(Started(policy, id, p), ops[2]);
    StepIs(held, ops[3]);
    StepIs(failed, ops[4]);
    RunKeepsInv(policy, One(id, p), ops[..3]);
    HoldCanSlipWithoutEngine(held, id, Observation(0, false, false));
  }

  lemma StaleRaises(policy: RuntimePolicy, id: string, p: Profile)
    requires id != "" && Suits(p, policy) && policy.failClosedOnStaleInput
    ensures var t := ObservedState(Started(policy, id, p), Observation(0, true, true));
            && t.health.state == FailClosed && t.registry == One(id, p.(warmed := true)) && p.failureCount == 0
            && t.active == Some(id) && t.pin.None? && t.policy == policy && EligibleAt(t, id, 0)
  {
  }

  // A pin can select a profile above its online bound

  lemma SingleSample(e: Estimator)
    requires |e.values| == 1
    ensures ConservativeBound(e) == e.values[0] + e.marginMs
  {
    var v := e.values[0];
    assert e.values == [v];
    assert Sort(e.values[1..], Leq) == [];
    assert Sort(e.values, Leq) == [v];
    assert Position(1, e.quantile) == 0.0;
    var deviations := Deviations([v], Median(e.values));
    assert deviations[0] == 0.0 && deviations == [0.0];
    assert Sort(deviations[1..], Leq) == [];
    assert Sort(deviations, Leq) == [0.0];
  }

  /** The latency whose bound, taken alone, exceeds the deadline by one. */
  function SlowFrame(policy: RuntimePolicy): FrameObservation {
    FrameObservation(0, policy.deadlineMs + 1.0 - policy.latencyMarginMs, true, -1.0, false)
  }

  function PinOps(id: string, policy: RuntimePolicy): seq<Op> {
    [MarkWarmed(id), Evaluate(0), ControllerModel.Observe(SlowFrame(policy)), Evaluate(0), RequestPin(id, 0, 1), Evaluate(0)]
  }

  /** Warm up, select, observe a slow frame, evaluate, pin, evaluate: the first evaluation after the
      slow frame drops the profile because of its online bound, and the last one switches to it. */
  lemma PinIgnoresOnlineBound(policy: RuntimePolicy, id: string, p: Profile)
    requires id != "" && Suits(p, policy) && policy.manualPinMaximumSeconds >= 1
    ensures var s, ops := Initial(policy, One(id, p)), PinOps(id, policy);
            var t := Run(s, ops[..5]);
            && Run(s, ops[..4]).active == None
            && id in t.estimators && ConservativeBound(t.estimators[id]) > policy.deadlineMs
            && Decision(t, 0).shouldSwitch && Decision(t, 0).to == Some(id) && Run(s, ops).active == Some(id)
  {
    hide Step, Run, Started, ObservedState, Evaluated, Decision, Switches, Suits, ConservativeBound, IsEligible;
    var s, ops := Initial(policy, One(id, p)), PinOps(id, policy);
    StartUp(policy, id, p, ops);
    SlowFrameObserved(policy, id, p);
    RunPrefix(s, ops, 2);
    RunPrefix(s, ops, 3);
    RunPrefix(s, ops, 4);
    RunPrefix(s, ops, 5);
    assert ops[..6] == ops;
    var slow, dropped, pinned := Run(s, ops[..3]), Run(s, ops[..4]), Run(s, ops[..5]);
    StepIs(Started(policy, id, p), ops[2]);
    StepIs(slow, ops[3]);
    StepIs(dropped, ops[4]);
    StepIs(pinned, ops[5]);
    DroppedForBound(slow, id);
    EvaluatedFrame(slow, 0);
    OfflineEligible(policy, p);
    PinTakesOver(pinned, id);
  }

  lemma OfflineEligible(policy: RuntimePolicy, p: Profile)
    requires Suits(p, policy)
    ensures IsEligible(p.(warmed := true), policy, p.offlineEnvelopeMs, 0)
  {
  }

  lemma SlowFrameObserved(policy: RuntimePolicy, id: string, p: Profile)
    requires id != "" && Suits(p, policy)
    ensures var t := ObservedState(Started(policy, id, p), SlowFrame(policy));
            && t.policy == policy && t.registry == One(id, p.(warmed := true)) && t.pin.None? && t.active == Some(id)
            && id in t.estimators && t.estimators[id].values != []
            && ConservativeBound(t.estimators[id]) == policy.deadlineMs + 1.0
  {
    hide ConservativeBound, RecoveryCounted, WindowAfter, EscalationAfter;
    var obs := SlowFrame(policy);
    var e := Observed(NewEstimator(policy), obs.latencyMs);
    assert e.values == [obs.latencyMs];
    SingleSample(e);
    CountingFrame(Attributed(Started(policy, id, p), id, obs)
                    .(missWindow := WindowAfter(Started(policy, id, p), Missed(Started(policy, id, p), obs)),
                      escalation := EscalationAfter(Started(policy, id, p), obs)), !Missed(Started(policy, id, p), obs));
  }

  lemma DroppedForBound(s: State, id: string)
    requires s.registry.order == [id] && id in s.registry.profiles && s.pin.None?
    requires id in s.estimators && s.estimators[id].values != []
    requires ConservativeBound(s.estimators[id]) > s.policy.deadlineMs
    ensures Evaluated(s, 0).active == None && Evaluated(s, 0).pin.None?
  {
    hide ConservativeBound;
    var ids := s.registry.order;
    assert ids[..0] == [];
    assert !EligibleAt(s, id, 0);
    assert EligibleIds(s, ids, 0) == [];
  }

  lemma PinTakesOver(s: State, id: string)
    requires s.active.None? && s.pin == Some(ManualPin(id, NS_PER_SECOND)) && id in s.registry.profiles
    requires var p := s.registry.profiles[id]; IsEligible(p, s.policy, p.offlineEnvelopeMs, 0)
    ensures Decision(s, 0).shouldSwitch && Decision(s, 0).to == Some(id) && Evaluated(s, 0).active == Some(id)
  {
    hide IsEligible;
    assert PinDecides(s, 0);
  }

  // A hold that a demotion outlives

  function FastEntry(id: string): BundleEntry {
    BundleEntry(id, Certified, 1.0, 1.0, 1.0, 1.0)
  }

  function AccurateEntry(id: string): BundleEntry {
    BundleEntry(id, Certified, 2.0, 2.0, 20.0, 2.0)
  }

  /** Only the fast profile meets the deadline. */
  function TightPolicy(): RuntimePolicy {
    RuntimePolicy(10.0, 0.0, 1, 1, 8, 8, 8, 0.5, 0.0, 0.0, 1.0, 0.0, false, 0.0, 60, true, true, 1, 3)
  }

  /** Both meet the deadline, but only the accurate one the quality floor. */
  function StrictPolicy(): RuntimePolicy {
    TightPolicy().(deadlineMs := 30.0, minimumQualityValue := 1.5)
  }

  function GoodFrame(stale: bool): FrameInput {
    FrameInput(0, 0, true, stale, -1.0, Succeeded(1.0, 0.0))
  }

  /** Configure, load, a stale frame, a new policy, an evaluation, and a fresh frame. */
  function DemotedOps(fast: string, accurate: string): seq<EngineOp> {
    [Configure(Some([FastEntry(fast), AccurateEntry(accurate)]), TightPolicy()), LoadAndWarmup(2, 0), Frame(GoodFrame(true)),
     Control(UpdatePolicy(StrictPolicy())), Control(Evaluate(0)), Frame(GoodFrame(false))]
  }

  function Pair(fast: string, accurate: string, warmed: bool): Registry {
    Registry([fast, accurate],
             map[fast := NewProfile(FastEntry(fast)).(warmed := warmed),
                 accurate := NewProfile(AccurateEntry(accurate)).(warmed := warmed)])
  }

  /** Both profiles are warm and nothing was measured. */
  function PairState(policy: RuntimePolicy, fast: string, accurate: string, active: Option<string>, health: Health): State {
    Initial(policy, Pair(fast, accurate, true))
      .(active := active, health := health,
        estimators := map[fast := NewEstimator(TightPolicy()), accurate := NewEstimator(TightPolicy())])
  }

  function PairEngine(s: State, fast: string, accurate: string): Engine {
    Engine(true, true, Some(s), {fast, accurate}, {fast, accurate})
  }

  lemma TightChoice(fast: string, accurate: string, active: Option<string>, health: Health)
    requires fast != accurate
    ensures var s := PairState(TightPolicy(), fast, accurate, active, health);
            && (active.None? ==> Judge(s, 0) == Startup(fast))
            && (active == Some(fast) ==> Judge(s, 0) == Stable)
  {
    var s := PairState(TightPolicy(), fast, accurate, active, health);
    assert EligibleAt(s, fast, 0) && !EligibleAt(s, accurate, 0);
    OneOfTwo(s, fast, accurate);
  }

  lemma StrictChoice(fast: string, accurate: string, active: Option<string>, health: Health)
    requires fast != accurate
    ensures var s := PairState(StrictPolicy(), fast, accurate, active, health);
            && (active == Some(fast) ==> Judge(s, 0) == Demotion(accurate, false))
            && (active == Some(accurate) ==> Judge(s, 0) == Stable)
  {
    var s := PairState(StrictPolicy(), fast, accurate, active, health);
    assert EligibleAt(s, accurate, 0) && !EligibleAt(s, fast, 0);
    OneOfTwo(s, fast, accurate);
    assert !DeadlineRisk(s);
  }

  lemma OneOfTwo(s: State, a: string, b: string)
    requires s.registry.order == [a, b] && (EligibleAt(s, a, 0) <==> !EligibleAt(s, b, 0))
    ensures EligibleIds(s, s.registry.order, 0) == if EligibleAt(s, a, 0) then [a] else [b]
  {
    hide EligibleAt;
    var ids := s.registry.order;
    assert ids[..1] == [a] && [a][..0] == [];
    assert EligibleIds(s, [a], 0) == if EligibleAt(s, a, 0) then [a] else [];
  }

  lemma PairConfigured(fast: string, accurate: string)
    requires fast != accurate && fast != "" && accurate != ""
    ensures Configuration(Some([FastEntry(fast), AccurateEntry(accurate)]), TightPolicy())
         == Engine(true, false, Some(Initial(TightPolicy(), Pair(fast, accurate, false))), {}, {fast, accurate})
  {
    hide NewProfile;
    var entries, one := [FastEntry(fast), AccurateEntry(accurate)], [FastEntry(fast)];
    assert entries[..1] == one && one[..0] == [];
    assert Registered([]) == Registration(true, Registry([], map[]), {});
    var first := Registered(one);
    assert first.ok && first.docs == {fast} && first.registry.order == [fast];
    assert first.registry.profiles == map[fast := NewProfile(FastEntry(fast))];
    var both := Registered(entries);
    ColdProfiles(fast, accurate);
    assert both.ok && both.registry.order == [fast, accurate];
    assert both.registry.profiles == Pair(fast, accurate, false).profiles;
    assert both.docs == {fast, accurate};
  }

  lemma ColdProfiles(fast: string, accurate: string)
    ensures NewProfile(FastEntry(fast)).(warmed := false) == NewProfile(FastEntry(fast))
    ensures NewProfile(AccurateEntry(accurate)).(warmed := false) == NewProfile(AccurateEntry(accurate))
  {
  }

  lemma PairWarmed(fast: string, accurate: string)
    requires fast != accurate && fast != "" && accurate != ""
    ensures var e := Engine(true, false, Some(Initial(TightPolicy(), Pair(fast, accurate, false))), {}, {fast, accurate});
            Warmed(e, [fast, accurate])
            == PairEngine(PairState(TightPolicy(), fast, accurate, None, INITIAL), fast, accurate).(ready := false)
  {
    hide NewProfile, NewEstimator;
    var e := Engine(true, false, Some(Initial(TightPolicy(), Pair(fast, accurate, false))), {}, {fast, accurate});
    var ids := [fast, accurate];
    assert ids[..1] == [fast] && [fast][..0] == [];
    var first := Warmed(e, [fast]);
    assert Warmed(e, []) == e;
    assert first.pool == {fast} && first.controller == Some(MarkedWarmed(e.controller.value, fast));
    var t := Warmed(e, ids);
    assert t.pool == {fast, accurate};
    assert t.controller.value.registry.profiles == Pair(fast, accurate, true).profiles;
    assert t.controller.value.estimators
        == map[fast := NewEstimator(TightPolicy()), accurate := NewEstimator(TightPolicy())];
  }

  lemma PairLoaded(fast: string, accurate: string)
    requires fast != accurate && fast != "" && accurate != ""
    ensures var e := Engine(true, false, Some(Initial(TightPolicy(), Pair(fast, accurate, false))), {}, {fast, accurate});
            Loaded(e, 2, 0).engine
            == PairEngine(PairState(TightPolicy(), fast, accurate, Some(fast), SetReady(INITIAL, StartupProfileSelected)),
                          fast, accurate)
  {
    hide Warmed, Judge, NewProfile, NewEstimator;
    PairWarmed(fast, accurate);
    TightChoice(fast, accurate, None, INITIAL);
  }

  lemma StaleFrame(fast: string, accurate: string)
    requires fast != accurate && fast != "" && accurate != ""
    ensures var h := SetReady(INITIAL, StartupProfileSelected);
            var s := PairState(TightPolicy(), fast, accurate, Some(fast), h);
            Framed(PairEngine(s, fast, accurate), GoodFrame(true)).engine
            == PairEngine(s.(health := SetFailClosed(h, InputStale)), fast, accurate)
  {
    hide Judge, NewProfile, NewEstimator;
    var h := SetReady(INITIAL, StartupProfileSelected);
    TightChoice(fast, accurate, Some(fast), h);
    TightChoice(fast, accurate, Some(fast), SetFailClosed(h, InputStale));
  }

  lemma StrictDemotes(fast: string, accurate: string, h: Health)
    requires fast != accurate
    ensures var s := PairState(TightPolicy(), fast, accurate, Some(fast), h);
            var t := Step(Step(s, UpdatePolicy(StrictPolicy())), Evaluate(0));
            t == PairState(StrictPolicy(), fast, accurate, Some(accurate), SetDegraded(h, ProfileSwitchDemotion))
  {
    hide Judge, NewProfile, NewEstimator;
    var s := PairState(TightPolicy(), fast, accurate, Some(fast), h);
    assert Step(s, UpdatePolicy(StrictPolicy())) == PairState(StrictPolicy(), fast, accurate, Some(fast), h);
    StrictChoice(fast, accurate, Some(fast), h);
  }

  lemma FrameAfterDemotion(fast: string, accurate: string, h: Health)
    requires fast != accurate && fast != "" && accurate != "" && h.state == Degraded
    ensures var e := PairEngine(PairState(StrictPolicy(), fast, accurate, Some(accurate), h), fast, accurate);
            Infers(e, Frame(GoodFrame(false))) && !GateSwitches(e, Frame(GoodFrame(false)))
  {
    hide Judge, NewProfile, NewEstimator, ExecutedFrame;
    var s := PairState(StrictPolicy(), fast, accurate, Some(accurate), h);
    var e, f := PairEngine(s, fast, accurate), GoodFrame(false);
    StrictChoice(fast, accurate, Some(accurate), h);
    SelectionEffect(s, 0, Stable);
    var t := Evaluated(s, 0);
    assert t.active == Some(accurate) && !t.health.hold;
    var gate := Outcome(e.(controller := Some(t)), Gated(Decision(s, 0).reason, t), EvaluationEvents(s, 0));
    var r := gate.result.(executedProfileId := accurate, activeProfileId := accurate, nextActiveProfileId := accurate);
    FinishedLog(gate.(result := r, events := gate.events + [Executed(accurate)]), t, f, accurate);
  }

  /** The hold is on after the evaluation (operation 4), the frame after it (operation 5) executes,
      and in between there is no lift at all, not even at the gate: the demotion to the accurate
      profile came while the hold was on, and left it on in the degraded state. */
  lemma DemotedHoldLetsFramesThrough(fast: string, accurate: string)
    requires fast != accurate && fast != "" && accurate != ""
    ensures var ops := DemotedOps(fast, accurate);
            && Shut(EngineAt(ops, 3)) && Held(EngineAt(ops, 5))
            && Infers(EngineAt(ops, 5), ops[5]) && !GateSwitches(EngineAt(ops, 5), ops[5])
  {
    hide EngineStep, EngineAt, Infers, GateSwitches, PairState, PairEngine;
    var ops := DemotedOps(fast, accurate);
    var h := SetFailClosed(SetReady(INITIAL, StartupProfileSelected), InputStale);
    EngineStepsOn(ops, 0);
    EngineStepsOn(ops, 1);
    EngineStepsOn(ops, 2);
    EngineStepsOn(ops, 3);
    EngineStepsOn(ops, 4);
    FirstOperations(EngineAt(ops, 0), fast, accurate);
    NextOperations(fast, accurate, h);
    HoldOfPair(TightPolicy(), fast, accurate, Some(fast), h);
    HoldOfPair(StrictPolicy(), fast, accurate, Some(accurate), SetDegraded(h, ProfileSwitchDemotion));
    FrameAfterDemotion(fast, accurate, SetDegraded(h, ProfileSwitchDemotion));
  }

  lemma FirstOperations(e: Engine, fast: string, accurate: string)
    requires fast != accurate && fast != "" && accurate != ""
    ensures var ops, h := DemotedOps(fast, accurate), SetFailClosed(SetReady(INITIAL, StartupProfileSelected), InputStale);
            EngineStep(EngineStep(EngineStep(e, ops[0]).engine, ops[1]).engine, ops[2]).engine
            == PairEngine(PairState(TightPolicy(), fast, accurate, Some(fast), h), fast, accurate)
  {
    hide Configuration, Loaded, Framed, NewProfile, NewEstimator;
    PairConfigured(fast, accurate);
    PairLoaded(fast, accurate);
    StaleFrame(fast, accurate);
  }

  lemma NextOperations(fast: string, accurate: string, h: Health)
    requires fast != accurate
    ensures var ops := DemotedOps(fast, accurate);
            var e := PairEngine(PairState(TightPolicy(), fast, accurate, Some(fast), h), fast, accurate);
            EngineStep(EngineStep(e, ops[3]).engine, ops[4]).engine
            == PairEngine(PairState(StrictPolicy(), fast, accurate, Some(accurate), SetDegraded(h, ProfileSwitchDemotion)),
                          fast, accurate)
  {
    hide Step, NewProfile, NewEstimator;
    StrictDemotes(fast, accurate, h);
  }

  lemma HoldOfPair(policy: RuntimePolicy, fast: string, accurate: string, active: Option<string>, h: Health)
    ensures var e := PairEngine(PairState(policy, fast, accurate, active, h), fast, accurate);
            (Held(e) <==> h.hold) && (Shut(e) <==> h.state == FailClosed)
  {
  }
}
