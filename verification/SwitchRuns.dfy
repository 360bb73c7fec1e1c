/** Which profile a switch goes to, when it may go there, and how often. */
module SwitchRuns {
  import opened Common
  import opened Profiles
  import opened Eligibility
  import opened HealthMachines
  import opened LatencyEstimators
  import opened ControllerModel
  import opened ControllerRuns

  // The target of a switch

  /** `p` is at least as good as `q`: by utility, then by the lower 99th percentile of latency, and
      under escalation by quality before both. */
  ghost predicate AtLeastAsGood(p: Profile, q: Profile, escalation: bool) {
    if escalation then
      && p.certifiedQuality >= q.certifiedQuality
      && (p.certifiedQuality == q.certifiedQuality ==>
            p.utility >= q.utility && (p.utility == q.utility ==> p.certifiedP99Ms <= q.certifiedP99Ms))
    else
      p.utility >= q.utility && (p.utility == q.utility ==> p.certifiedP99Ms <= q.certifiedP99Ms)
  }

  lemma {:induction false} BestIsMaximal(profiles: map<string, Profile>, ids: seq<string>, preferQuality: bool)
    requires ids != [] && forall id | id in ids :: id in profiles
    ensures var best := profiles[Best(profiles, ids, preferQuality)];
            forall id | id in ids :: AtLeastAsGood(best, profiles[id], preferQuality)
  {
    if |ids| > 1 {
      BestIsMaximal(profiles, ids[..|ids| - 1], preferQuality);
      assert ids == ids[..|ids| - 1] + [ids[|ids| - 1]];
    }
  }

  /** `id` is the first, in the order of `ids`, of the best eligible ones. */
  ghost predicate FirstAmong(s: State, ids: seq<string>, id: string, nowNs: int) {
    exists k | 0 <= k < |ids| :: ids[k] == id && IsFirstAt(s, ids, k, nowNs)
  }

  ghost predicate IsFirstAt(s: State, ids: seq<string>, k: nat, nowNs: int)
    requires k < |ids|
  {
    && EligibleAt(s, ids[k], nowNs)
    && forall j | 0 <= j < |ids| && EligibleAt(s, ids[j], nowNs) ::
         && AtLeastAsGood(s.registry.profiles[ids[k]], s.registry.profiles[ids[j]], s.escalation)
         && (j < k ==> !AtLeastAsGood(s.registry.profiles[ids[j]], s.registry.profiles[ids[k]], s.escalation))
  }

  lemma FirstKeeps(s: State, ids: seq<string>, k: nat, nowNs: int)
    requires k < |ids| - 1 && IsFirstAt(s, ids[..|ids| - 1], k, nowNs)
    requires EligibleAt(s, ids[|ids| - 1], nowNs) ==>
               !Better(s.registry.profiles[ids[|ids| - 1]], s.registry.profiles[ids[k]], s.escalation)
    ensures IsFirstAt(s, ids, k, nowNs)
  {
    hide EligibleAt;
    var before := ids[..|ids| - 1];
    assert forall j | 0 <= j < |before| :: before[j] == ids[j];
  }

  lemma FirstReplaced(s: State, ids: seq<string>, k: nat, nowNs: int)
    requires k < |ids| - 1 && IsFirstAt(s, ids[..|ids| - 1], k, nowNs)
    requires EligibleAt(s, ids[|ids| - 1], nowNs)
    requires Better(s.registry.profiles[ids[|ids| - 1]], s.registry.profiles[ids[k]], s.escalation)
    ensures IsFirstAt(s, ids, |ids| - 1, nowNs)
  {
    var before := ids[..|ids| - 1];
    assert forall j | 0 <= j < |before| :: before[j] == ids[j];
    hide EligibleAt;
  }

  lemma FirstAlone(s: State, ids: seq<string>, nowNs: int)
    requires ids != [] && EligibleAt(s, ids[|ids| - 1], nowNs) && EligibleIds(s, ids[..|ids| - 1], nowNs) == []
    ensures IsFirstAt(s, ids, |ids| - 1, nowNs)
  {
    NoneBefore(s, ids, nowNs);
    hide EligibleIds;
  }

  /** Of the eligible profiles the choice is the best one, and among equals the first. */
  lemma {:induction false} ChoiceIsFirst(s: State, ids: seq<string>, nowNs: int)
    requires EligibleIds(s, ids, nowNs) != []
    ensures FirstAmong(s, ids, Best(s.registry.profiles, EligibleIds(s, ids, nowNs), s.escalation), nowNs)
  {
    var before, last := ids[..|ids| - 1], ids[|ids| - 1];
    var e := EligibleIds(s, before, nowNs);
    EligibleAreRegistered(s, before, nowNs);
    EligibleAreRegistered(s, ids, nowNs);
    hide EligibleAt, Better, IsFirstAt, AtLeastAsGood;
    if e == [] {
      assert EligibleIds(s, ids, nowNs) == [last];
      FirstAlone(s, ids, nowNs);
    } else {
      ChoiceIsFirst(s, before, nowNs);
      var best := Best(s.registry.profiles, e, s.escalation);
      var k :| 0 <= k < |before| && before[k] == best && IsFirstAt(s, before, k, nowNs);
      assert ids[k] == best;
      if !EligibleAt(s, last, nowNs) {
        assert EligibleIds(s, ids, nowNs) == e;
        FirstKeeps(s, ids, k, nowNs);
      } else {
        assert (e + [last])[..|e|] == e;
        if Better(s.registry.profiles[last], s.registry.profiles[best], s.escalation) {
          FirstReplaced(s, ids, k, nowNs);
        } else {
          FirstKeeps(s, ids, k, nowNs);
        }
      }
    }
  }

  lemma EligibleAreRegistered(s: State, ids: seq<string>, nowNs: int)
    ensures forall id | id in EligibleIds(s, ids, nowNs) :: id in s.registry.profiles
  {
  }

  lemma NoneBefore(s: State, ids: seq<string>, nowNs: int)
    requires ids != [] && EligibleIds(s, ids[..|ids| - 1], nowNs) == []
    ensures forall j | 0 <= j < |ids| - 1 :: !EligibleAt(s, ids[j], nowNs)
  {
    forall j | 0 <= j < |ids| - 1 ensures !EligibleAt(s, ids[j], nowNs) {
      assert ids[..|ids| - 1][j] in ids[..|ids| - 1];
    }
  }

  lemma FirstIsUnique(s: State, ids: seq<string>, a: string, b: string, nowNs: int)
    requires FirstAmong(s, ids, a, nowNs) && FirstAmong(s, ids, b, nowNs)
    ensures a == b
  {
    hide EligibleAt, AtLeastAsGood;
    var k :| 0 <= k < |ids| && ids[k] == a && IsFirstAt(s, ids, k, nowNs);
    var m :| 0 <= m < |ids| && ids[m] == b && IsFirstAt(s, ids, m, nowNs);
  }

  /** The comparison is a strict order: nothing beats itself, it is transitive, and two profiles
      of which neither beats the other have the same key. */
  lemma BetterIsStrictOrder(a: Profile, b: Profile, c: Profile, preferQuality: bool)
    ensures !Better(a, a, preferQuality)
    ensures Better(a, b, preferQuality) && Better(b, c, preferQuality) ==> Better(a, c, preferQuality)
    ensures !Better(a, b, preferQuality) && !Better(b, a, preferQuality) <==>
            KeyOf(a, preferQuality) == KeyOf(b, preferQuality)
  {
  }

  datatype Key = Key(quality: real, utility: real, p99Ms: real)

  /** What the comparison looks at. */
  function KeyOf(p: Profile, preferQuality: bool): Key {
    Key(if preferQuality then p.certifiedQuality else 0.0, p.utility, p.certifiedP99Ms)
  }

  /** However the registry happens to be iterated, the chosen profile has the same key. */
  lemma BestKeyIgnoresOrder(profiles: map<string, Profile>, a: seq<string>, b: seq<string>, preferQuality: bool)
    requires a != [] && b != [] && (forall id | id in a :: id in profiles) && (forall id :: id in a <==> id in b)
    ensures KeyOf(profiles[Best(profiles, a, preferQuality)], preferQuality)
         == KeyOf(profiles[Best(profiles, b, preferQuality)], preferQuality)
  {
    BestIsMaximal(profiles, a, preferQuality);
    BestIsMaximal(profiles, b, preferQuality);
  }

  ghost predicate BestEligible(s: State, best: string, nowNs: int)
    requires best in s.registry.profiles
  {
    forall id | EligibleAt(s, id, nowNs) ::
      AtLeastAsGood(s.registry.profiles[best], s.registry.profiles[id], s.escalation)
  }

  /** An automatic switch goes to a registered profile that is certified, warmed, out of cooldown
      and at or above the quality floor, whose offline, weighted and online bounds all meet the
      deadline, and which is at least as good as every eligible profile. */
  lemma AutomaticTarget(s: State, nowNs: int)
    requires RegistryOk(s.registry)
    requires Decision(s, nowNs).shouldSwitch && Decision(s, nowNs).reason != ManualPinned
    ensures Decision(s, nowNs).to.Some? && Evaluated(s, nowNs).active == Decision(s, nowNs).to
    ensures var to := Decision(s, nowNs).to.value;
            && to in s.registry.profiles
            && var p := s.registry.profiles[to];
            && p.status.Certified? && p.warmed && p.cooldownUntilNs <= nowNs
            && p.certifiedQuality >= s.policy.minimumQualityValue
            && p.offlineEnvelopeMs <= s.policy.deadlineMs
            && p.offlineEnvelopeMs * s.policy.offlineEnvelopeWeight <= s.policy.deadlineMs
            && (to in s.estimators && s.estimators[to].values != [] ==>
                  ConservativeBound(s.estimators[to]) <= s.policy.deadlineMs)
            && BestEligible(s, to, nowNs)
  {
    hide Judge, Applied, Announced, IsEligible;
    SelectionEffect(s, nowNs, Judge(s, nowNs));
    SelectionTarget(s, nowNs);
    SelectionIsMaximal(s, nowNs);
    TargetBounds(s, Judge(s, nowNs).to, nowNs);
  }

  lemma SelectionIsMaximal(s: State, nowNs: int)
    requires RegistryOk(s.registry) && Selects(Judge(s, nowNs)) && !Judge(s, nowNs).PinSwitch?
    ensures Judge(s, nowNs).to in s.registry.profiles && BestEligible(s, Judge(s, nowNs).to, nowNs)
  {
    BestIsEligible(s, nowNs);
    var ids := EligibleIds(s, s.registry.order, nowNs);
    if ids != [] && !PinDecides(s, nowNs) {
      var best := Best(s.registry.profiles, ids, s.escalation);
      BestIsMaximal(s.registry.profiles, ids, s.escalation);
      ContestTarget(s, best, nowNs);
    }
  }

  lemma TargetBounds(s: State, id: string, nowNs: int)
    requires EligibleAt(s, id, nowNs)
    ensures var p := s.registry.profiles[id];
            && p.status.Certified? && p.warmed && p.cooldownUntilNs <= nowNs
            && p.certifiedQuality >= s.policy.minimumQualityValue
            && p.offlineEnvelopeMs * s.policy.offlineEnvelopeWeight <= s.policy.deadlineMs
    ensures s.registry.profiles[id].offlineEnvelopeMs <= s.policy.deadlineMs
    ensures id in s.estimators && s.estimators[id].values != [] ==>
              ConservativeBound(s.estimators[id]) <= s.policy.deadlineMs
  {
    hide ConservativeBound, IsEligible;
    EligibleMeets(s.registry.profiles[id], s.policy, BoundMs(s, id), nowNs);
  }

  lemma EligibleMeets(p: Profile, policy: RuntimePolicy, boundMs: real, nowNs: int)
    requires IsEligible(p, policy, boundMs, nowNs)
    ensures p.status.Certified? && p.warmed && p.cooldownUntilNs <= nowNs
    ensures p.certifiedQuality >= policy.minimumQualityValue
    ensures p.offlineEnvelopeMs * policy.offlineEnvelopeWeight <= policy.deadlineMs
    ensures boundMs <= policy.deadlineMs
  {
  }

  /** Every switch, pinned or not, goes to another profile that is certified, warmed, out of
      cooldown and at or above the quality floor, and whose offline and weighted bounds meet the
      deadline. Only the online bound is left to automatic switches. */
  lemma AnyTarget(s: State, nowNs: int)
    requires RegistryOk(s.registry) && Decision(s, nowNs).shouldSwitch
    ensures Decision(s, nowNs).to.Some? && Evaluated(s, nowNs).active == Decision(s, nowNs).to
    ensures var to := Decision(s, nowNs).to.value;
            && to in s.registry.profiles && s.active != Some(to)
            && var p := s.registry.profiles[to];
            && p.status.Certified? && p.warmed && p.cooldownUntilNs <= nowNs
            && p.certifiedQuality >= s.policy.minimumQualityValue
            && p.offlineEnvelopeMs <= s.policy.deadlineMs
            && p.offlineEnvelopeMs * s.policy.offlineEnvelopeWeight <= s.policy.deadlineMs
  {
    hide Judge, Applied, Announced, IsEligible;
    var v := Judge(s, nowNs);
    SelectionEffect(s, nowNs, v);
    SelectionTarget(s, nowNs);
    var p := s.registry.profiles[v.to];
    EligibleMeets(p, s.policy, if v.PinSwitch? then p.offlineEnvelopeMs else BoundMs(s, v.to), nowNs);
  }

  // Cooldown

  predicate Fails(s: State, op: Op, id: string) {
    op.Observe? && Counted(s, op.obs) && s.active == Some(id) && !op.obs.inferenceOk
  }

  /** After a failure of `id` at time t, and as long as no recovery is requested and no later
      observation carries an earlier time, no switch selects `id` before t + 2 s. */
  lemma NoSwitchIntoCooldown(s: State, ops: seq<Op>, id: string, i: nat, j: nat)
    requires RegistryOk(s.registry)
    requires i < j < |ops| && Fails(Run(s, ops[..i]), ops[i], id)
    requires forall k | i < k <= j :: !ops[k].RequestRecovery?
    requires forall k | i < k <= j && ops[k].Observe? :: ops[k].obs.nowNs >= ops[i].obs.nowNs
    requires Switches(Run(s, ops[..j]), ops[j]) && Decision(Run(s, ops[..j]), ops[j].nowNs).to == Some(id)
    ensures ops[j].nowNs >= ops[i].obs.nowNs + 2_000_000_000
  {
    var until := ops[i].obs.nowNs + COOLDOWN_NS;
    RunRegistered(s, ops[..i]);
    RunPrefix(s, ops, i);
    FailureStartsCooldown(Run(s, ops[..i]), ops[i], id);
    CooldownLasts(s, ops, id, until, i + 1, j);
    AnyTarget(Run(s, ops[..j]), ops[j].nowNs);
  }

  ghost predicate CoolsUntil(s: State, id: string, until: int) {
    RegistryOk(s.registry) && id in s.registry.profiles && s.registry.profiles[id].cooldownUntilNs >= until
  }

  lemma FailureStartsCooldown(s: State, op: Op, id: string)
    requires RegistryOk(s.registry) && Fails(s, op, id)
    ensures CoolsUntil(Step(s, op), id, op.obs.nowNs + COOLDOWN_NS)
  {
    StepKeepsDocuments(s, op);
    ObservedCooldown(s, op.obs, id);
  }

  lemma {:induction false} CooldownLasts(s: State, ops: seq<Op>, id: string, until: int, i: nat, j: nat)
    requires i <= j <= |ops| && CoolsUntil(Run(s, ops[..i]), id, until)
    requires forall k | i <= k < j :: !ops[k].RequestRecovery?
    requires forall k | i <= k < j && ops[k].Observe? :: ops[k].obs.nowNs + COOLDOWN_NS >= until
    ensures CoolsUntil(Run(s, ops[..j]), id, until)
  {
    if i < j {
      CooldownLasts(s, ops, id, until, i, j - 1);
      RunPrefix(s, ops, j - 1);
      CooldownStep(Run(s, ops[..j - 1]), ops[j - 1], id, until);
    }
  }

  lemma CooldownStep(s: State, op: Op, id: string, until: int)
    requires CoolsUntil(s, id, until)
    requires !op.RequestRecovery? && (op.Observe? ==> op.obs.nowNs + COOLDOWN_NS >= until)
    ensures CoolsUntil(Step(s, op), id, until)
  {
    StepKeepsDocuments(s, op);
    match op
    case Evaluate(nowNs) => EvaluatedFrame(s, nowNs);
    case Observe(obs) => ObservedCooldown(s, obs, id);
    case _ =>
  }

  lemma ObservedCooldown(s: State, obs: FrameObservation, id: string)
    requires id in s.registry.profiles
    ensures var t := ObservedState(s, obs);
            && id in t.registry.profiles
            && t.registry.profiles[id].cooldownUntilNs
               == if Fails(s, Observe(obs), id) then obs.nowNs + COOLDOWN_NS
                  else s.registry.profiles[id].cooldownUntilNs
  {
  }

  lemma {:induction false} RunRegistered(s: State, ops: seq<Op>)
    requires RegistryOk(s.registry)
    ensures RegistryOk(Run(s, ops).registry) && SameDocuments(s.registry, Run(s, ops).registry)
  {
    if ops != [] {
      RunRegistered(s, ops[..|ops| - 1]);
      StepKeepsDocuments(Run(s, ops[..|ops| - 1]), ops[|ops| - 1]);
    }
  }

  // Promotions

  predicate Promotes(s: State, op: Op) {
    op.Evaluate? && Judge(s, op.nowNs).Promotion?
  }

  /** The time of the last switch of any kind in a run. */
  ghost function LastSwitchNs(s: State, ops: seq<Op>): Option<int> {
    if ops == [] then None
    else
      var before := ops[..|ops| - 1];
      if Switches(Run(s, before), ops[|ops| - 1]) then Some(ops[|ops| - 1].nowNs) else LastSwitchNs(s, before)
  }

  lemma {:induction false} ActiveSinceLastSwitch(policy: RuntimePolicy, registry: Registry, ops: seq<Op>)
    requires RegistryOk(registry)
    ensures var t := Run(Initial(policy, registry), ops);
            var last := LastSwitchNs(Initial(policy, registry), ops);
            && (last.Some? ==> t.activeSinceNs == last.value)
            && (t.active.Some? ==> last.Some?)
  {
    if ops != [] {
      var s := Initial(policy, registry);
      var before := ops[..|ops| - 1];
      ActiveSinceLastSwitch(policy, registry, before);
      RunRegistered(s, before);
      SinceStep(Run(s, before), ops[|ops| - 1]);
    }
  }

  lemma SinceStep(s: State, op: Op)
    requires RegistryOk(s.registry)
    ensures Switches(s, op) ==> Step(s, op).activeSinceNs == op.nowNs
    ensures !Switches(s, op) ==>
              Step(s, op).activeSinceNs == s.activeSinceNs && (Step(s, op).active.Some? ==> s.active.Some?)
  {
    match op
    case Observe(obs) => ObservedFrame(s, obs);
    case Evaluate(nowNs) => SelectionEffect(s, nowNs, Judge(s, nowNs));
    case _ =>
  }

  /** In every run, a promotion comes at least the minimum dwell time after the last switch of any
      kind, and the profile it activates has strictly higher utility. */
  lemma PromotionWaitsAndImproves(policy: RuntimePolicy, registry: Registry, ops: seq<Op>, nowNs: int)
    requires RegistryOk(registry)
    requires Promotes(Run(Initial(policy, registry), ops), Evaluate(nowNs))
    ensures var s := Run(Initial(policy, registry), ops);
            var last := LastSwitchNs(Initial(policy, registry), ops);
            && last.Some? && (nowNs - last.value) as real / 1_000_000.0 >= s.policy.minimumDwellMs
            && s.active.Some? && s.active.value in s.registry.profiles
            && var to := Evaluated(s, nowNs).active;
            && to.Some? && to.value in s.registry.profiles
            && s.registry.profiles[to.value].utility > s.registry.profiles[s.active.value].utility
  {
    ActiveSinceLastSwitch(policy, registry, ops);
    RunRegistered(Initial(policy, registry), ops);
    PromotionImproves(Run(Initial(policy, registry), ops), nowNs);
  }

  lemma ContestPromotes(s: State, best: string, nowNs: int)
    requires best in s.registry.profiles && Contest(s, best, nowNs).Promotion?
    ensures Contest(s, best, nowNs).to == best
    ensures s.active.Some? && s.active.value in s.registry.profiles && DwellOver(s, nowNs)
    ensures s.registry.profiles[best].utility > s.registry.profiles[s.active.value].utility
  {
    hide IsEligible, BoundMs, DeadlineRisk;
  }

  lemma PromotionImproves(s: State, nowNs: int)
    requires RegistryOk(s.registry) && Judge(s, nowNs).Promotion?
    ensures s.active.Some? && s.active.value in s.registry.profiles && DwellOver(s, nowNs)
    ensures var to := Evaluated(s, nowNs).active;
            && to.Some? && to.value in s.registry.profiles
            && s.registry.profiles[to.value].utility > s.registry.profiles[s.active.value].utility
  {
    hide Contest, PinDecides, DwellOver, Applied, IsEligible, BoundMs, DeadlineRisk;
    BestIsEligible(s, nowNs);
    SelectionEffect(s, nowNs, Judge(s, nowNs));
    ContestPromotes(s, Best(s.registry.profiles, EligibleIds(s, s.registry.order, nowNs), s.escalation), nowNs);
  }

  lemma PromotionStep(s: State, op: Op)
    requires RegistryOk(s.registry) && Promotes(s, op)
    ensures s.active.Some? && s.active.value in s.registry.profiles
    ensures var to := Step(s, op).active;
            && to.Some? && to.value in s.registry.profiles
            && s.registry.profiles[to.value].utility > s.registry.profiles[s.active.value].utility
  {
    PromotionImproves(s, op.nowNs);
  }

  ghost function PromotionCount(s: State, ops: seq<Op>): nat {
    if ops == [] then 0
    else
      var before := ops[..|ops| - 1];
      PromotionCount(s, before) + if Promotes(Run(s, before), ops[|ops| - 1]) then 1 else 0
  }

  /** The profiles that are strictly better than a given utility. */
  ghost function Above(r: Registry, utility: real): set<string> {
    set id | id in r.profiles && r.profiles[id].utility > utility
  }

  ghost predicate OnlyPromotionsMove(s: State, ops: seq<Op>) {
    forall i | 0 <= i < |ops| ::
      Run(s, ops[..i + 1]).active == Run(s, ops[..i]).active || Promotes(Run(s, ops[..i]), ops[i])
  }

  /** While only promotions change the active profile, there are at most registry size - 1 of
      them: each one shrinks the set of profiles with higher utility. */
  lemma PromotionsAreBounded(s: State, ops: seq<Op>)
    requires Inv(s) && OnlyPromotionsMove(s, ops)
    ensures s.registry.profiles != map[] ==> PromotionCount(s, ops) <= |s.registry.profiles| - 1
    ensures s.registry.profiles == map[] ==> PromotionCount(s, ops) == 0
  {
    PromotionMeasure(s, ops);
    if s.active.Some? {
      var above := Above(s.registry, s.registry.profiles[s.active.value].utility);
      assert above <= s.registry.profiles.Keys - {s.active.value};
      SubsetSize(above, s.registry.profiles.Keys - {s.active.value});
    }
  }

  lemma {:induction false} PromotionMeasure(s: State, ops: seq<Op>)
    requires Inv(s) && OnlyPromotionsMove(s, ops)
    ensures var t := Run(s, ops);
            && Inv(t) && SameDocuments(s.registry, t.registry)
            && (s.active.None? ==> t.active.None? && PromotionCount(s, ops) == 0)
            && (s.active.Some? ==>
                  && t.active.Some?
                  && PromotionCount(s, ops) + |Above(t.registry, t.registry.profiles[t.active.value].utility)|
                     <= |Above(s.registry, s.registry.profiles[s.active.value].utility)|)
  {
    hide Step, Promotes, HealthInv;
    if ops != [] {
      var before, op := ops[..|ops| - 1], ops[|ops| - 1];
      forall i | 0 <= i < |before|
        ensures Run(s, before[..i + 1]).active == Run(s, before[..i]).active || Promotes(Run(s, before[..i]), before[i])
      {
        assert before[..i + 1] == ops[..i + 1] && before[..i] == ops[..i];
      }
      PromotionMeasure(s, before);
      var t := Run(s, before);
      StepKeepsInv(t, op);
      StepKeepsDocuments(t, op);
      var u := Step(t, op);
      assert ops[..|before| + 1] == ops;
      assert u.active == t.active || Promotes(t, op);
      if Promotes(t, op) {
        PromotionStep(t, op);
        AboveShrinks(t.registry, t.active.value, u.active.value);
      }
      SameAbove(t.registry, u.registry);
    }
  }

  lemma SameAbove(r: Registry, t: Registry)
    requires SameDocuments(r, t)
    ensures forall utility :: Above(r, utility) == Above(t, utility)
  {
  }

  lemma AboveShrinks(r: Registry, from: string, to: string)
    requires from in r.profiles && to in r.profiles && r.profiles[to].utility > r.profiles[from].utility
    ensures |Above(r, r.profiles[to].utility)| + 1 <= |Above(r, r.profiles[from].utility)|
  {
    var a, b := Above(r, r.profiles[to].utility), Above(r, r.profiles[from].utility);
    assert a + {to} <= b && to !in a;
    SubsetSize(a + {to}, b);
  }

  // Confirmation

  /** The evaluations in a run that found a demotion (a promotion) due since the last one that
      decided otherwise. A neutral evaluation interrupts a promotion but not a demotion. */
  ghost function DemotionVotes(s: State, ops: seq<Op>): nat {
    if ops == [] then 0
    else
      var before, op := ops[..|ops| - 1], ops[|ops| - 1];
      if !op.Evaluate? then DemotionVotes(s, before)
      else
        match Judge(Run(s, before), op.nowNs)
        case DemotionPending => DemotionVotes(s, before) + 1
        case Stable => 0
        case Demotion(_, _) => 0
        case PromotionPending => 0
        case Promotion(_) => 0
        case _ => DemotionVotes(s, before)
  }

  ghost function PromotionVotes(s: State, ops: seq<Op>): nat {
    if ops == [] then 0
    else
      var before, op := ops[..|ops| - 1], ops[|ops| - 1];
      if !op.Evaluate? then PromotionVotes(s, before)
      else
        match Judge(Run(s, before), op.nowNs)
        case PromotionPending => PromotionVotes(s, before) + 1
        case Stable => 0
        case DemotionPending => 0
        case Demotion(_, _) => 0
        case Promotion(_) => 0
        case Neutral => 0
        case _ => PromotionVotes(s, before)
  }

  lemma VoteStep(s: State, nowNs: int, v: Verdict)
    ensures Applied(s, nowNs, v).demotionStreak
         == match v
            case DemotionPending => s.demotionStreak + 1
            case PinHolds => s.demotionStreak
            case PinSwitch(_) => s.demotionStreak
            case NoneEligible => s.demotionStreak
            case Startup(_) => s.demotionStreak
            case Neutral => s.demotionStreak
            case _ => 0
    ensures Applied(s, nowNs, v).promotionStreak
         == match v
            case PromotionPending => s.promotionStreak + 1
            case PinHolds => s.promotionStreak
            case PinSwitch(_) => s.promotionStreak
            case NoneEligible => s.promotionStreak
            case Startup(_) => s.promotionStreak
            case _ => 0
  {
  }

  lemma {:induction false} StreaksAreVotes(policy: RuntimePolicy, registry: Registry, ops: seq<Op>)
    ensures var s := Initial(policy, registry);
            && Run(s, ops).demotionStreak == DemotionVotes(s, ops)
            && Run(s, ops).promotionStreak == PromotionVotes(s, ops)
  {
    hide Judge, Applied, ObservedState;
    if ops != [] {
      var before, op := ops[..|ops| - 1], ops[|ops| - 1];
      StreaksAreVotes(policy, registry, before);
      var t := Run(Initial(policy, registry), before);
      match op
      case Evaluate(nowNs) => VoteStep(t, nowNs, Judge(t, nowNs));
      case Observe(obs) => ObservedFrame(t, obs);
      case _ =>
    }
  }

  lemma ContestConfirms(s: State, best: string, nowNs: int)
    requires best in s.registry.profiles
    ensures var v := Contest(s, best, nowNs);
            && (v.Demotion? || v.DemotionPending? ==>
                  (v.Demotion? <==> s.demotionStreak + 1 >= s.policy.demotionConfirmationFrames))
            && (v.Promotion? || v.PromotionPending? ==>
                  (v.Promotion? <==> s.promotionStreak + 1 >= s.policy.promotionConfirmationFrames))
  {
    hide MustDemote, DwellOver, DeadlineRisk;
  }

  /** In every run, a demotion that is due takes place exactly when demotion_confirmation_frames
      votes for one are reached, the present one included, and likewise for promotions. */
  lemma SwitchesAreConfirmed(policy: RuntimePolicy, registry: Registry, ops: seq<Op>, nowNs: int)
    ensures var s := Initial(policy, registry);
            var t := Run(s, ops);
            var v := Judge(t, nowNs);
            && (v.Demotion? || v.DemotionPending? ==>
                  (v.Demotion? <==> DemotionVotes(s, ops) + 1 >= t.policy.demotionConfirmationFrames))
            && (v.Promotion? || v.PromotionPending? ==>
                  (v.Promotion? <==> PromotionVotes(s, ops) + 1 >= t.policy.promotionConfirmationFrames))
  {
    hide DemotionVotes, PromotionVotes, Contest, PinDecides, IsEligible;
    StreaksAreVotes(policy, registry, ops);
    var t := Run(Initial(policy, registry), ops);
    var ids := EligibleIds(t, t.registry.order, nowNs);
    if !PinDecides(t, nowNs) && ids != [] {
      ContestConfirms(t, Best(t.registry.profiles, ids, t.escalation), nowNs);
    }
  }

  // Demotions

  function EvaluationCount(ops: seq<Op>): nat {
    if ops == [] then 0
    else EvaluationCount(ops[..|ops| - 1]) + if ops[|ops| - 1].Evaluate? then 1 else 0
  }

  /** The situation in which the active profile `id` has to be left. */
  ghost predicate MustLeave(s: State, id: string, nowNs: int) {
    && !EligibleAt(s, id, nowNs)
    && !PinDecides(s, nowNs)
    && exists other :: EligibleAt(s, other, nowNs)
  }

  /** If the active profile has to be left at every one of max(1, demotion_confirmation_frames)
      successive evaluations, then by the last of them the controller has moved to an eligible
      profile, whatever is observed in between. */
  lemma DemotionHappens(s: State, ops: seq<Op>, id: string) returns (k: nat)
    requires Inv(s) && s.active == Some(id)
    requires forall i | 0 <= i < |ops| :: ops[i].Evaluate? || ops[i].Observe?
    requires forall i | 0 <= i < |ops| && ops[i].Evaluate? && Run(s, ops[..i]).active == Some(id) ::
               MustLeave(Run(s, ops[..i]), id, ops[i].nowNs)
    requires EvaluationCount(ops) >= Max(1, s.policy.demotionConfirmationFrames)
    ensures k < |ops| && ops[k].Evaluate?
    ensures EvaluationCount(ops[..k + 1]) <= Max(1, s.policy.demotionConfirmationFrames)
    ensures var t := Run(s, ops[..k]);
            && Decision(t, ops[k].nowNs).shouldSwitch
            && Run(s, ops[..k + 1]).active.Some?
            && EligibleAt(t, Run(s, ops[..k + 1]).active.value, ops[k].nowNs)
  {
    hide Step, Evaluated, Decision, HealthInv;
    k := 0;
    assert ops[..|ops|] == ops;
    while true
      invariant k < |ops| && StillLeaving(s, Run(s, ops[..k]), id, EvaluationCount(ops[..k]))
      decreases |ops| - k
    {
      var t := Run(s, ops[..k]);
      RunPrefix(s, ops, k);
      assert ops[..k + 1][..k] == ops[..k];
      LeavingStep(s, t, id, EvaluationCount(ops[..k]), ops[k]);
      if ops[k].Evaluate? && Judge(t, ops[k].nowNs).Demotion? {
        return;
      }
      k := k + 1;
    }
  }

  /** The streak of demotion votes keeps up with the evaluations so far. */
  ghost predicate StillLeaving(s: State, t: State, id: string, evaluations: nat) {
    && Inv(t) && t.policy == s.policy && t.active == Some(id)
    && t.demotionStreak >= evaluations
    && evaluations < Max(1, s.policy.demotionConfirmationFrames)
  }

  lemma LeavingStep(s: State, t: State, id: string, evaluations: nat, op: Op)
    requires StillLeaving(s, t, id, evaluations)
    requires op.Observe? || (op.Evaluate? && MustLeave(t, id, op.nowNs))
    ensures op.Observe? ==> StillLeaving(s, Step(t, op), id, evaluations)
    ensures op.Evaluate? && !Judge(t, op.nowNs).Demotion? ==> StillLeaving(s, Step(t, op), id, evaluations + 1)
    ensures op.Evaluate? && Judge(t, op.nowNs).Demotion? ==>
              && Decision(t, op.nowNs).shouldSwitch
              && Step(t, op).active.Some? && EligibleAt(t, Step(t, op).active.value, op.nowNs)
  {
    StepKeepsInv(t, op);
    if op.Evaluate? {
      LeavingVerdict(t, id, op.nowNs);
      EvaluatedFrame(t, op.nowNs);
    } else {
      ObservedFrame(t, op.obs);
    }
  }

  lemma LeavingVerdict(s: State, id: string, nowNs: int)
    requires Inv(s) && s.active == Some(id) && MustLeave(s, id, nowNs)
    ensures var t := Evaluated(s, nowNs);
            if s.demotionStreak + 1 >= s.policy.demotionConfirmationFrames then
              && Judge(s, nowNs).Demotion? && Decision(s, nowNs).shouldSwitch
              && t.active.Some? && EligibleAt(s, t.active.value, nowNs)
            else
              Judge(s, nowNs).DemotionPending? && t.active == s.active && t.demotionStreak == s.demotionStreak + 1
  {
    BestIsEligible(s, nowNs);
    var ids := EligibleIds(s, s.registry.order, nowNs);
    var other :| EligibleAt(s, other, nowNs);
    assert other in ids;
  }
}
