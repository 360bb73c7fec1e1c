/** What holds of every run of the engine. */
module EngineRuns {
  import opened Common
  import opened Profiles
  import opened HealthMachines
  import opened LatencyEstimators
  import opened ControllerModel
  import opened ControllerRuns
  import opened SwitchRuns
  import opened RecoveryRuns
  import opened EngineModel

  // Warm profiles, sessions and documents

  /** Every warmed profile has a session and an estimator, every registered profile has a document
      and is certified, and every estimator has room for samples. */
  ghost predicate Backed(s: State, pool: set<string>, docs: set<string>) {
    && (forall id | id in s.estimators :: s.estimators[id].window >= 8)
    && forall id | id in s.registry.profiles ::
      && id in docs && s.registry.profiles[id].status.Certified?
      && (s.registry.profiles[id].warmed ==> id in pool && id in s.estimators)
  }

  ghost predicate EngineOk(e: Engine) {
    && (e.configured <==> e.controller.Some?)
    && (e.ready ==> e.configured)
    && (e.controller.Some? ==> Inv(e.controller.value) && Backed(e.controller.value, e.pool, e.docs))
  }

  /** Every step of the controller other than a warm-up keeps warmth and estimators. */
  lemma StepKeepsBacked(s: State, op: Op, pool: set<string>, docs: set<string>)
    requires Backed(s, pool, docs) && !op.MarkWarmed?
    ensures Backed(Step(s, op), pool, docs)
  {
    match op
    case Evaluate(nowNs) => EvaluatedFrame(s, nowNs);
    case Observe(obs) => ObservedBacking(s, obs);
    case _ =>
  }

  lemma ObservedBacking(s: State, obs: FrameObservation)
    ensures var t := ObservedState(s, obs);
            && t.registry.profiles.Keys == s.registry.profiles.Keys && t.estimators.Keys == s.estimators.Keys
            && (forall id | id in s.estimators :: t.estimators[id].window == s.estimators[id].window)
            && forall id | id in s.registry.profiles ::
                 && t.registry.profiles[id].status == s.registry.profiles[id].status
                 && t.registry.profiles[id].warmed == s.registry.profiles[id].warmed
  {
    if Counted(s, obs) {
      var t := Attributed(s, s.active.value, obs);
      assert ObservedState(s, obs).registry == t.registry && ObservedState(s, obs).estimators == t.estimators;
    }
  }

  lemma StepKeepsOk(s: State, op: Op, pool: set<string>, docs: set<string>)
    requires Inv(s) && Backed(s, pool, docs) && !op.MarkWarmed?
    ensures Inv(Step(s, op)) && Backed(Step(s, op), pool, docs)
  {
    hide Step, Inv, Backed;
    StepKeepsInv(s, op);
    StepKeepsBacked(s, op, pool, docs);
  }

  lemma EvaluatedKeepsOk(s: State, nowNs: int, pool: set<string>, docs: set<string>)
    requires Inv(s) && Backed(s, pool, docs)
    ensures Inv(Evaluated(s, nowNs)) && Backed(Evaluated(s, nowNs), pool, docs)
  {
    hide Evaluated, Inv, Backed;
    StepKeepsOk(s, Evaluate(nowNs), pool, docs);
  }

  lemma ObservedKeepsOk(s: State, obs: FrameObservation, pool: set<string>, docs: set<string>)
    requires Inv(s) && Backed(s, pool, docs)
    ensures Inv(ObservedState(s, obs)) && Backed(ObservedState(s, obs), pool, docs)
  {
    hide ObservedState, Inv, Backed;
    StepKeepsOk(s, Observe(obs), pool, docs);
  }

  lemma WarmingKeepsBacked(s: State, id: string, pool: set<string>, docs: set<string>)
    requires Backed(s, pool, docs)
    ensures Backed(MarkedWarmed(s, id), pool + {id}, docs)
  {
  }

  lemma {:induction false} WarmedKeepsOk(e: Engine, ids: seq<string>)
    requires EngineOk(e) && e.controller.Some? && !e.ready
    ensures EngineOk(Warmed(e, ids)) && Warmed(e, ids).configured == e.configured && !Warmed(e, ids).ready
  {
    hide MarkedWarmed, Inv, Backed;
    if ids != [] {
      var t, id := Warmed(e, ids[..|ids| - 1]), ids[|ids| - 1];
      WarmedKeepsOk(e, ids[..|ids| - 1]);
      StepKeepsInv(t.controller.value, MarkWarmed(id));
      WarmingKeepsBacked(t.controller.value, id, t.pool, t.docs);
    }
  }

  lemma {:induction false} RegistrationIsSound(entries: seq<BundleEntry>)
    ensures var r := Registered(entries);
            && RegistryOk(r.registry)
            && forall id | id in r.registry.profiles ::
                 id in r.docs && r.registry.profiles[id].status.Certified? && !r.registry.profiles[id].warmed
  {
    if entries != [] {
      RegistrationIsSound(entries[..|entries| - 1]);
    }
  }

  ghost predicate Clashes(entries: seq<BundleEntry>, i: nat)
    requires i < |entries|
  {
    && entries[i].status.Certified?
    && (entries[i].id == "" || exists j | 0 <= j < i :: entries[j].status.Certified? && entries[j].id == entries[i].id)
  }

  lemma SameClash(a: seq<BundleEntry>, b: seq<BundleEntry>, i: nat)
    requires i < |a| <= |b| && a == b[..|a|]
    ensures Clashes(a, i) == Clashes(b, i)
  {
    assert forall j | 0 <= j <= i :: a[j] == b[j];
  }

  lemma LastClashes(entries: seq<BundleEntry>)
    requires entries != []
    requires var r, n := Registered(entries[..|entries| - 1]), |entries| - 1;
             && (forall i | 0 <= i < n && entries[i].status.Certified? :: entries[i].id in r.registry.profiles)
             && forall id | id in r.registry.profiles ::
                  exists i | 0 <= i < n :: entries[i].status.Certified? && entries[i].id == id
    ensures var r, b := Registered(entries[..|entries| - 1]), entries[|entries| - 1];
            Clashes(entries, |entries| - 1) <==> b.status.Certified? && (b.id == "" || b.id in r.registry.profiles)
  {
  }

  /** Registration succeeds exactly when no certified entry is unnamed or repeats the id of an
      earlier one, and then it has registered every certified entry, cold and healthy, and kept
      every document. */
  lemma {:induction false} RegistrationExactly(entries: seq<BundleEntry>)
    ensures var r := Registered(entries);
            && (r.ok <==> forall i | 0 <= i < |entries| :: !Clashes(entries, i))
            && (r.ok ==>
                  && (forall i | 0 <= i < |entries| :: entries[i].id in r.docs)
                  && (forall i | 0 <= i < |entries| && entries[i].status.Certified? ::
                        entries[i].id in r.registry.profiles && r.registry.profiles[entries[i].id] == NewProfile(entries[i]))
                  && forall id | id in r.registry.profiles ::
                       exists i | 0 <= i < |entries| :: entries[i].status.Certified? && entries[i].id == id)
  {
    hide NewProfile, Clashes;
    if entries != [] {
      var before, last := entries[..|entries| - 1], |entries| - 1;
      RegistrationExactly(before);
      assert forall i | 0 <= i < last :: before[i] == entries[i];
      forall i | 0 <= i < last ensures Clashes(before, i) == Clashes(entries, i) {
        SameClash(before, entries, i);
      }
      assert (forall i | 0 <= i < |entries| :: !Clashes(entries, i))
        <==> (forall i | 0 <= i < last :: !Clashes(entries, i)) && !Clashes(entries, last);
      if Registered(before).ok {
        LastClashes(entries);
      }
    }
  }

  /** A successful load leaves the engine ready: every registered profile is warmed and has a
      session, and the active one is among them. A failed load leaves it not ready. */
  lemma ReadyAfterLoad(e: Engine, created: nat, nowNs: int)
    requires EngineOk(e) && e.configured
    ensures var o := Loaded(e, created, nowNs);
            && (o.engine.ready <==> o.result.ok) && o.engine.controller.Some?
            && (o.result.ok ==>
                  var s := o.engine.controller.value;
                  && s.active.Some? && s.active.value in s.registry.profiles
                  && forall id | id in s.registry.profiles :: s.registry.profiles[id].warmed && id in o.engine.pool)
  {
    hide Evaluated, EvaluationEvents, HealthInv;
    LoadedKeepsOk(e, created, nowNs);
    var order := e.controller.value.registry.order;
    WarmedKeepsOk(e.(ready := false), order[..Min(created, |order|)]);
    assert order[..|order|] == order;
    if created >= |order| {
      AllWarmed(e.(ready := false), order);
      EvaluatedFrame(Warmed(e.(ready := false), order).controller.value, nowNs);
    }
  }

  lemma {:induction false} AllWarmed(e: Engine, ids: seq<string>)
    requires e.controller.Some?
    ensures var t := Warmed(e, ids);
            && SameDocuments(e.controller.value.registry, t.controller.value.registry)
            && forall id | id in ids && id in e.controller.value.registry.profiles ::
                 t.controller.value.registry.profiles[id].warmed && id in t.pool
  {
    if ids != [] {
      AllWarmed(e, ids[..|ids| - 1]);
      StepKeepsDocuments(Warmed(e, ids[..|ids| - 1]).controller.value, MarkWarmed(ids[|ids| - 1]));
    }
  }

  lemma FramedKeepsOk(e: Engine, f: FrameInput)
    requires EngineOk(e)
    ensures EngineOk(Framed(e, f).engine)
  {
    hide Evaluated, ObservedState, Decision, EvaluationEvents, ObservationEvents, Inv, Backed;
    if e.ready {
      var s := e.controller.value;
      var t := Evaluated(s, f.nowNs);
      EvaluatedKeepsOk(s, f.nowNs, e.pool, e.docs);
      if !f.outcome.Refused? {
        var obs := ObservationOf(f);
        ObservedKeepsOk(t, obs, e.pool, e.docs);
        EvaluatedKeepsOk(ObservedState(t, obs), f.doneNs, e.pool, e.docs);
      }
    }
  }

  lemma LoadedKeepsOk(e: Engine, created: nat, nowNs: int)
    requires EngineOk(e)
    ensures EngineOk(Loaded(e, created, nowNs).engine)
  {
    if e.configured {
      var order := e.controller.value.registry.order;
      WarmedKeepsOk(e.(ready := false), order[..Min(created, |order|)]);
      assert order[..|order|] == order;
      var t := Warmed(e.(ready := false), order[..Min(created, |order|)]);
      EvaluatedKeepsOk(t.controller.value, nowNs, t.pool, t.docs);
    }
  }

  lemma EngineStepKeepsOk(e: Engine, op: EngineOp)
    requires EngineOk(e)
    ensures EngineOk(EngineStep(e, op).engine)
  {
    match op
    case Configure(bundle, policy) =>
      if bundle.Some? {
        RegistrationIsSound(bundle.value);
      }
    case LoadAndWarmup(created, nowNs) => LoadedKeepsOk(e, created, nowNs);
    case Frame(input) => FramedKeepsOk(e, input);
    case Control(c) =>
      if e.controller.Some? && External(c) {
        StepKeepsOk(e.controller.value, c, e.pool, e.docs);
      }
  }

  lemma {:induction false} RunKeepsOk(ops: seq<EngineOp>)
    ensures EngineOk(EngineRun(ops).engine)
  {
    if ops != [] {
      RunKeepsOk(ops[..|ops| - 1]);
      EngineStepKeepsOk(EngineRun(ops[..|ops| - 1]).engine, ops[|ops| - 1]);
    }
  }

  /** In every run: the session and the document of the executed profile are always found, and an
      ok frame is attributed to the profile that executed it, with no hold and no error. */
  lemma FrameProvenance(ops: seq<EngineOp>, f: FrameInput)
    ensures var r := Framed(EngineRun(ops).engine, f).result;
            && r.error != SessionMissing && r.error != DocumentMissing
            && r.activeProfileId == r.executedProfileId
            && (r.ok ==> r.executedProfileId != "" && !r.hold && r.holdReason == NoReason && r.error == NoError)
            && (r.hold ==> !r.ok)
  {
    hide Evaluated, ObservedState, Decision, EvaluationEvents, ObservationEvents, Chains;
    RunKeepsOk(ops);
    var e := EngineRun(ops).engine;
    if e.ready {
      var s := e.controller.value;
      EvaluatedKeepsOk(s, f.nowNs, e.pool, e.docs);
      var t := Evaluated(s, f.nowNs);
      if !f.outcome.Refused? {
        ObservedKeepsOk(t, ObservationOf(f), e.pool, e.docs);
        EvaluatedKeepsOk(ObservedState(t, ObservationOf(f)), f.doneNs, e.pool, e.docs);
      }
    }
  }

  // The hold

  predicate LiftsHold(event: Event) {
    event.Switched? || event.Recovered? || event.Configured?
  }

  /** A hold was raised and nothing that lifts it has happened since. */
  ghost predicate Armed(log: seq<Event>) {
    log != [] &&
    var last := log[|log| - 1];
    last.HoldRaised? || (!LiftsHold(last) && Armed(log[..|log| - 1]))
  }

  ghost predicate QuietWhileArmed(log: seq<Event>) {
    forall j | 0 <= j < |log| && log[j].Executed? :: !Armed(log[..j])
  }

  /** While armed, the controller is fail-closed and holding. */
  ghost predicate Closed(log: seq<Event>, s: State) {
    QuietWhileArmed(log) && (Armed(log) ==> s.health.state == FailClosed && s.health.hold)
  }

  lemma {:induction false} ArmedAfter(log: seq<Event>, i: nat)
    requires i < |log| && log[i].HoldRaised?
    requires forall k | i < k < |log| :: !LiftsHold(log[k])
    ensures Armed(log)
  {
    if i < |log| - 1 {
      ArmedAfter(log[..|log| - 1], i);
    }
  }

  lemma Append(log: seq<Event>, event: Event)
    ensures Armed(log + [event]) <==> event.HoldRaised? || (!LiftsHold(event) && Armed(log))
    ensures QuietWhileArmed(log + [event]) <==> QuietWhileArmed(log) && (event.Executed? ==> !Armed(log))
  {
    var longer := log + [event];
    assert longer[..|log|] == log;
    forall j | 0 <= j < |log| ensures longer[..j] == log[..j] {
    }
    if QuietWhileArmed(longer) {
      forall j | 0 <= j < |log| && log[j].Executed? ensures !Armed(log[..j]) {
        assert longer[j].Executed?;
      }
      if event.Executed? {
        assert longer[|log|].Executed?;
      }
    }
  }

  lemma EvaluationKeepsClosed(log: seq<Event>, s: State, nowNs: int)
    requires Inv(s) && Closed(log, s)
    ensures Closed(log + EvaluationEvents(s, nowNs), Evaluated(s, nowNs))
  {
    hide Inv, Judge, QuietWhileArmed, Armed;
    var events := EvaluationEvents(s, nowNs);
    if events == [] {
      assert log + events == log;
      if Armed(log) {
        SelectionEffect(s, nowNs, Judge(s, nowNs));
        FailClosedStays(s, Evaluate(nowNs));
      }
    } else {
      Append(log, events[0]);
      assert events == [events[0]];
    }
  }

  lemma ObservationKeepsClosed(log: seq<Event>, s: State, obs: FrameObservation)
    requires Inv(s) && Closed(log, s) && !s.health.hold
    ensures Closed(log + ObservationEvents(s, obs), ObservedState(s, obs))
  {
    var events := ObservationEvents(s, obs);
    if events == [] {
      assert log + events == log;
    } else {
      Append(log, HoldRaised);
    }
  }

  ghost predicate ClosedEngine(log: seq<Event>, e: Engine) {
    if e.controller.Some? then Closed(log, e.controller.value) else QuietWhileArmed(log) && !Armed(log)
  }

  lemma ExecutedKeepsClosed(log: seq<Event>, o: Outcome, t: State, f: FrameInput, pool: set<string>, docs: set<string>)
    requires Inv(t) && Backed(t, pool, docs) && !t.health.hold && o.engine.controller == Some(t)
    requires Closed(log + o.events, t)
    ensures ClosedEngine(log + ExecutedFrame(o, t, f).events, ExecutedFrame(o, t, f).engine)
  {
    hide Evaluated, ObservedState, Decision, EvaluationEvents, ObservationEvents, Inv, Backed, Closed;
    if !f.outcome.Refused? {
      var executed := log + o.events;
      var obs := ObservationOf(f);
      var u := ObservedState(t, obs);
      ObservationKeepsClosed(executed, t, obs);
      ObservedKeepsOk(t, obs, pool, docs);
      EvaluationKeepsClosed(executed + ObservationEvents(t, obs), u, f.doneNs);
      assert log + ExecutedFrame(o, t, f).events
          == executed + ObservationEvents(t, obs) + EvaluationEvents(u, f.doneNs);
    }
  }

  lemma AttemptedKeepsClosed(log: seq<Event>, gate: Outcome, id: string, t: State, f: FrameInput)
    requires Inv(t) && Backed(t, gate.engine.pool, gate.engine.docs) && !t.health.hold
    requires gate.engine.controller == Some(t) && Closed(log + gate.events, t)
    ensures ClosedEngine(log + Attempted(gate, id, t, f).events, Attempted(gate, id, t, f).engine)
  {
    hide ExecutedFrame, Inv, QuietWhileArmed, Armed;
    Append(log + gate.events, Executed(id));
    var r := gate.result.(executedProfileId := id, activeProfileId := id, nextActiveProfileId := id);
    var o := gate.(result := r, events := gate.events + [Executed(id)]);
    assert log + o.events == log + gate.events + [Executed(id)];
    ExecutedKeepsClosed(log, o, t, f, gate.engine.pool, gate.engine.docs);
  }

  lemma FramedKeepsClosed(log: seq<Event>, e: Engine, f: FrameInput)
    requires EngineOk(e) && ClosedEngine(log, e)
    ensures ClosedEngine(log + Framed(e, f).events, Framed(e, f).engine)
  {
    hide Attempted, Evaluated, Decision, EvaluationEvents, Inv, Backed, Closed, QuietWhileArmed, Armed;
    if !e.ready {
      assert log + Framed(e, f).events == log;
    } else {
      var s := e.controller.value;
      var t := Evaluated(s, f.nowNs);
      EvaluationKeepsClosed(log, s, f.nowNs);
      EvaluatedKeepsOk(s, f.nowNs, e.pool, e.docs);
      if t.active.Some? && !t.health.hold {
        var gate := Outcome(e.(controller := Some(t)), Gated(Decision(s, f.nowNs).reason, t), EvaluationEvents(s, f.nowNs));
        AttemptedKeepsClosed(log, gate, t.active.value, t, f);
      }
    }
  }

  lemma LoadedKeepsClosed(log: seq<Event>, e: Engine, created: nat, nowNs: int)
    requires EngineOk(e) && ClosedEngine(log, e)
    ensures ClosedEngine(log + Loaded(e, created, nowNs).events, Loaded(e, created, nowNs).engine)
  {
    var o := Loaded(e, created, nowNs);
    if e.configured {
      var order := e.controller.value.registry.order;
      var ids := order[..Min(created, |order|)];
      assert order[..|order|] == order;
      WarmedKeepsOk(e.(ready := false), ids);
      WarmedKeepsHealth(e.(ready := false), ids);
      var t := Warmed(e.(ready := false), ids);
      EvaluationKeepsClosed(log, t.controller.value, nowNs);
    }
    if o.events == [] {
      assert log + o.events == log;
    }
  }

  lemma {:induction false} WarmedKeepsHealth(e: Engine, ids: seq<string>)
    requires e.controller.Some?
    ensures Warmed(e, ids).controller.value.health == e.controller.value.health
  {
    if ids != [] {
      WarmedKeepsHealth(e, ids[..|ids| - 1]);
    }
  }

  lemma EngineStepKeepsClosed(log: seq<Event>, e: Engine, op: EngineOp)
    requires EngineOk(e) && ClosedEngine(log, e)
    ensures ClosedEngine(log + EngineStep(e, op).events, EngineStep(e, op).engine)
  {
    match op
    case Configure(bundle, policy) => Append(log, Configured);
    case LoadAndWarmup(created, nowNs) => LoadedKeepsClosed(log, e, created, nowNs);
    case Frame(input) => FramedKeepsClosed(log, e, input);
    case Control(c) => ControlledKeepsClosed(log, e, c);
  }

  lemma ControlledKeepsClosed(log: seq<Event>, e: Engine, op: Op)
    requires EngineOk(e) && ClosedEngine(log, e)
    ensures ClosedEngine(log + Controlled(e, op).events, Controlled(e, op).engine)
  {
    assert log + [] == log;
    if e.controller.Some? && External(op) {
      match op
      case Evaluate(nowNs) => EvaluationKeepsClosed(log, e.controller.value, nowNs);
      case RequestRecovery => Append(log, Recovered);
      case _ =>
    }
  }

  lemma {:induction false} RunStaysClosed(ops: seq<EngineOp>)
    ensures ClosedEngine(EngineRun(ops).log, EngineRun(ops).engine)
  {
    if ops != [] {
      var before := ops[..|ops| - 1];
      RunStaysClosed(before);
      RunKeepsOk(before);
      EngineStepKeepsClosed(EngineRun(before).log, EngineRun(before).engine, ops[|ops| - 1]);
    }
  }

  /** In the log of every engine run, between the raising of a control hold and the next executed
      inference there is an accepted recovery request, a switch or a new configuration. */
  lemma NoInferenceLoggedUnderHold(ops: seq<EngineOp>, i: nat, j: nat)
    requires i < j < |EngineRun(ops).log|
    requires EngineRun(ops).log[i].HoldRaised? && EngineRun(ops).log[j].Executed?
    ensures exists k | i < k < j :: LiftsHold(EngineRun(ops).log[k])
  {
    var log := EngineRun(ops).log;
    RunStaysClosed(ops);
    assert !Armed(log[..j]);
    if forall k | i < k < j :: !LiftsHold(log[k]) {
      ArmedAfter(log[..j], i);
      assert false;
    }
  }

  // The log tells what happens to the controller

  /** An evaluation logs a switch exactly when it decides one, and it logs the raising of the hold
      whenever it turns the hold on; a logged raising leaves the controller fail-closed. */
  lemma EvaluationIsLogged(s: State, nowNs: int)
    ensures var events, t, d := EvaluationEvents(s, nowNs), Evaluated(s, nowNs), Decision(s, nowNs);
            && (d.shouldSwitch ==> d.to.Some? && events == [Switched(d.to.value)])
            && (!d.shouldSwitch ==> events == [] || events == [HoldRaised])
            && (!s.health.hold && t.health.hold ==> events == [HoldRaised])
            && (events == [HoldRaised] ==> t.health.state == FailClosed && t.health.hold)
  {
    hide Judge;
    SelectionEffect(s, nowNs, Judge(s, nowNs));
  }

  lemma ObservationIsLogged(s: State, obs: FrameObservation)
    ensures var events, t := ObservationEvents(s, obs), ObservedState(s, obs);
            && (events == [] || events == [HoldRaised])
            && (!s.health.hold && t.health.hold ==> events == [HoldRaised])
            && (events == [HoldRaised] ==> t.health.state == FailClosed && t.health.hold)
  {
  }

  /** A frame was executed when a profile is on record and neither a lookup nor its preprocess
      document failed. */
  predicate Inferred(r: FrameResult) {
    r.executedProfileId != "" && r.error != SessionMissing && r.error != DocumentMissing && r.error != PreprocessInvalid
  }

  lemma NoExecutionLogged(s: State, nowNs: int, obs: FrameObservation, id: string)
    ensures multiset(EvaluationEvents(s, nowNs))[Executed(id)] == 0
    ensures multiset(ObservationEvents(s, obs))[Executed(id)] == 0
  {
    hide Judge;
    EvaluationIsLogged(s, nowNs);
  }

  lemma FinishedLog(o: Outcome, t: State, f: FrameInput, id: string)
    ensures multiset(ExecutedFrame(o, t, f).events)[Executed(id)] == multiset(o.events)[Executed(id)]
    ensures ExecutedFrame(o, t, f).result.executedProfileId == o.result.executedProfileId
    ensures var error := ExecutedFrame(o, t, f).result.error;
            error != SessionMissing && error != DocumentMissing && error != PreprocessInvalid
  {
    hide Evaluated, ObservedState, Decision, EvaluationEvents, ObservationEvents;
    if !f.outcome.Refused? {
      var obs := ObservationOf(f);
      NoExecutionLogged(t, 0, obs, id);
      NoExecutionLogged(ObservedState(t, obs), f.doneNs, obs, id);
    }
  }

  lemma AttemptLogged(gate: Outcome, active: string, t: State, f: FrameInput, id: string)
    requires active != "" && multiset(gate.events)[Executed(id)] == 0
    ensures var o := Attempted(gate, active, t, f);
            multiset(o.events)[Executed(id)] == if Inferred(o.result) && id == o.result.executedProfileId then 1 else 0
    ensures Attempted(gate, active, t, f).result.executedProfileId == active
    ensures Attempted(gate, active, t, f).result.ok ==> gate.result.ok || Inferred(Attempted(gate, active, t, f).result)
  {
    hide ExecutedFrame;
    var r := gate.result.(executedProfileId := active, activeProfileId := active, nextActiveProfileId := active);
    FinishedLog(gate.(result := r, events := gate.events + [Executed(active)]), t, f, id);
  }

  /** A frame logs exactly one execution, of the profile its result names, if it was executed, and
      none otherwise; every ok frame was. */
  lemma ExecutionIsLogged(e: Engine, f: FrameInput, id: string)
    requires EngineOk(e)
    ensures var o := Framed(e, f);
            && multiset(o.events)[Executed(id)] == (if Inferred(o.result) && id == o.result.executedProfileId then 1 else 0)
            && (o.result.ok ==> Inferred(o.result))
  {
    hide Evaluated, Decision, EvaluationEvents, Attempted, Inv, Backed;
    if e.ready {
      var s := e.controller.value;
      var t := Evaluated(s, f.nowNs);
      EvaluatedKeepsOk(s, f.nowNs, e.pool, e.docs);
      ActiveIsNamed(t);
      NoExecutionLogged(s, f.nowNs, FrameObservation(0, 0.0, true, 0.0, false), id);
      if t.active.Some? && !t.health.hold {
        var gate := Outcome(e.(controller := Some(t)), Gated(Decision(s, f.nowNs).reason, t), EvaluationEvents(s, f.nowNs));
        AttemptLogged(gate, t.active.value, t, f, id);
      }
    }
  }

  lemma ActiveIsNamed(s: State)
    requires Inv(s)
    ensures s.active.Some? ==> s.active.value != ""
  {
  }

  // The hold over states and operations

  function EngineAt(ops: seq<EngineOp>, i: nat): Engine
    requires i <= |ops|
  {
    EngineRun(ops[..i]).engine
  }

  lemma EngineStepsOn(ops: seq<EngineOp>, i: nat)
    requires i < |ops|
    ensures EngineAt(ops, i + 1) == EngineStep(EngineAt(ops, i), ops[i]).engine
    ensures EngineOk(EngineAt(ops, i)) && EngineOk(EngineAt(ops, i + 1))
  {
    assert ops[..i + 1][..i] == ops[..i];
    RunKeepsOk(ops[..i]);
    RunKeepsOk(ops[..i + 1]);
  }

  predicate Held(e: Engine) {
    e.controller.Some? && e.controller.value.health.hold
  }

  predicate Shut(e: Engine) {
    e.controller.Some? && e.controller.value.health.state == FailClosed
  }

  /** The operation is a frame that is executed. */
  predicate Infers(e: Engine, op: EngineOp) {
    op.Frame? && Inferred(Framed(e, op.input).result)
  }

  /** The evaluation before the execution of a frame decides to switch. */
  predicate GateSwitches(e: Engine, op: EngineOp) {
    op.Frame? && e.ready && e.controller.Some? && Decision(e.controller.value, op.input.nowNs).shouldSwitch
  }

  /** The evaluation after the observation of an executed frame decides to switch. */
  predicate FinalSwitches(e: Engine, op: EngineOp) {
    && Infers(e, op) && e.controller.Some? && !op.input.outcome.Refused?
    && var t := ObservedState(Evaluated(e.controller.value, op.input.nowNs), ObservationOf(op.input));
       Decision(t, op.input.doneNs).shouldSwitch
  }

  /** The initial selection of a complete load decides to switch. */
  predicate LoadSwitches(e: Engine, op: EngineOp) {
    && op.LoadAndWarmup? && e.configured && e.controller.Some?
    && var order := e.controller.value.registry.order;
    && op.created >= |order|
    && var t := Warmed(e.(ready := false), order);
       t.pool != {} && Decision(t.controller.value, op.nowNs).shouldSwitch
  }

  /** An accepted recovery request, a decision to switch or a new configuration. */
  predicate Lifts(e: Engine, op: EngineOp) {
    || op.Configure?
    || GateSwitches(e, op) || FinalSwitches(e, op) || LoadSwitches(e, op)
    || (op.Control? && e.controller.Some? && op.op.RequestRecovery? && RecoveryAccepted(e.controller.value))
    || (op.Control? && e.controller.Some? && Switches(e.controller.value, op.op))
  }

  ghost predicate LogsLift(events: seq<Event>) {
    exists k | 0 <= k < |events| :: LiftsHold(events[k])
  }

  lemma LogsLiftAppend(a: seq<Event>, b: seq<Event>)
    ensures LogsLift(a + b) <==> LogsLift(a) || LogsLift(b)
  {
    if k :| 0 <= k < |a| && LiftsHold(a[k]) {
      assert (a + b)[k] == a[k];
    }
    if k :| 0 <= k < |b| && LiftsHold(b[k]) {
      assert (a + b)[|a| + k] == b[k];
    }
  }

  lemma DecisionsLift(s: State, nowNs: int, obs: FrameObservation)
    ensures LogsLift(EvaluationEvents(s, nowNs)) <==> Decision(s, nowNs).shouldSwitch
    ensures !LogsLift(ObservationEvents(s, obs))
  {
    hide Judge, Decision, EvaluationEvents, ObservationEvents;
    EvaluationIsLogged(s, nowNs);
    ObservationIsLogged(s, obs);
    var events := EvaluationEvents(s, nowNs);
    if Decision(s, nowNs).shouldSwitch {
      assert LiftsHold(events[0]);
    }
  }

  lemma FinishedLift(o: Outcome, t: State, f: FrameInput)
    ensures LogsLift(ExecutedFrame(o, t, f).events) <==>
            LogsLift(o.events)
            || (!f.outcome.Refused? && Decision(ObservedState(t, ObservationOf(f)), f.doneNs).shouldSwitch)
  {
    hide Evaluated, ObservedState, Decision, EvaluationEvents, ObservationEvents, LogsLift;
    if !f.outcome.Refused? {
      var obs := ObservationOf(f);
      var u := ObservedState(t, obs);
      DecisionsLift(t, 0, obs);
      DecisionsLift(u, f.doneNs, obs);
      LogsLiftAppend(o.events, ObservationEvents(t, obs));
      LogsLiftAppend(o.events + ObservationEvents(t, obs), EvaluationEvents(u, f.doneNs));
    }
  }

  lemma AttemptLift(gate: Outcome, active: string, t: State, f: FrameInput)
    requires active != ""
    ensures var o := Attempted(gate, active, t, f);
            LogsLift(o.events) <==>
            LogsLift(gate.events)
            || (Inferred(o.result) && !f.outcome.Refused?
                && Decision(ObservedState(t, ObservationOf(f)), f.doneNs).shouldSwitch)
  {
    hide ExecutedFrame, Decision, ObservedState, LogsLift;
    var r := gate.result.(executedProfileId := active, activeProfileId := active, nextActiveProfileId := active);
    var o := gate.(result := r, events := gate.events + [Executed(active)]);
    FinishedLift(o, t, f);
    FinishedLog(o, t, f, active);
    ExecutedLiftsNothing(active);
    LogsLiftAppend(gate.events, [Executed(active)]);
  }

  lemma ExecutedLiftsNothing(id: string)
    ensures !LogsLift([Executed(id)])
  {
  }

  lemma FrameLift(e: Engine, f: FrameInput)
    requires EngineOk(e)
    ensures LogsLift(Framed(e, f).events) <==> GateSwitches(e, Frame(f)) || FinalSwitches(e, Frame(f))
  {
    hide Evaluated, Decision, EvaluationEvents, Attempted, ObservedState, Inv, Backed;
    if e.ready {
      var s := e.controller.value;
      var t := Evaluated(s, f.nowNs);
      EvaluatedKeepsOk(s, f.nowNs, e.pool, e.docs);
      ActiveIsNamed(t);
      DecisionsLift(s, f.nowNs, FrameObservation(0, 0.0, true, 0.0, false));
      if t.active.Some? && !t.health.hold {
        var gate := Outcome(e.(controller := Some(t)), Gated(Decision(s, f.nowNs).reason, t), EvaluationEvents(s, f.nowNs));
        AttemptLift(gate, t.active.value, t, f);
      }
    }
  }

  lemma LoadLift(e: Engine, created: nat, nowNs: int)
    requires EngineOk(e)
    ensures LogsLift(Loaded(e, created, nowNs).events) <==> LoadSwitches(e, LoadAndWarmup(created, nowNs))
  {
    hide Evaluated, Decision, EvaluationEvents, Inv, Backed;
    if e.configured {
      var order := e.controller.value.registry.order;
      if created >= |order| {
        DecisionsLift(Warmed(e.(ready := false), order).controller.value, nowNs, FrameObservation(0, 0.0, true, 0.0, false));
      }
    }
  }

  /** The log records every operation that lifts the hold, and no other one as such. */
  lemma LiftIsLogged(e: Engine, op: EngineOp)
    requires EngineOk(e)
    ensures Lifts(e, op) <==> LogsLift(EngineStep(e, op).events)
  {
    hide Framed, Loaded, GateSwitches, FinalSwitches, LoadSwitches, Step, Decision, EvaluationEvents, Inv, Backed;
    OtherSwitches(e, op);
    match op
    case Configure(_, _) => assert LiftsHold([Configured][0]);
    case LoadAndWarmup(created, nowNs) => LoadLift(e, created, nowNs);
    case Frame(f) => FrameLift(e, f);
    case Control(c) =>
      if c.Evaluate? && e.controller.Some? {
        DecisionsLift(e.controller.value, c.nowNs, FrameObservation(0, 0.0, true, 0.0, false));
      } else if c.RequestRecovery? {
        assert LiftsHold([Recovered][0]);
      }
  }

  lemma OtherSwitches(e: Engine, op: EngineOp)
    ensures !op.Frame? ==> !GateSwitches(e, op) && !FinalSwitches(e, op)
    ensures !op.LoadAndWarmup? ==> !LoadSwitches(e, op)
  {
  }

  lemma EvaluationStaysShut(s: State, nowNs: int)
    requires Inv(s) && s.health.state == FailClosed && !Decision(s, nowNs).shouldSwitch
    ensures Evaluated(s, nowNs).health.state == FailClosed && Evaluated(s, nowNs).health.hold
  {
    FailClosedStays(s, Evaluate(nowNs));
  }

  lemma ShutFrame(e: Engine, f: FrameInput)
    requires EngineOk(e) && Shut(e) && !GateSwitches(e, Frame(f))
    ensures Shut(Framed(e, f).engine) && !Infers(e, Frame(f))
  {
    hide Evaluated, Decision, EvaluationEvents, Attempted, Inv, Backed;
    if e.ready {
      EvaluationStaysShut(e.controller.value, f.nowNs);
    }
  }

  lemma ShutLoad(e: Engine, created: nat, nowNs: int)
    requires EngineOk(e) && Shut(e) && !LoadSwitches(e, LoadAndWarmup(created, nowNs))
    ensures Shut(Loaded(e, created, nowNs).engine)
  {
    hide Evaluated, Decision, EvaluationEvents, Inv, Backed;
    if e.configured {
      var order := e.controller.value.registry.order;
      var ids := order[..Min(created, |order|)];
      assert order[..|order|] == order;
      WarmedKeepsOk(e.(ready := false), ids);
      WarmedKeepsHealth(e.(ready := false), ids);
      var t := Warmed(e.(ready := false), ids);
      if created >= |order| && t.pool != {} {
        EvaluationStaysShut(t.controller.value, nowNs);
      }
    }
  }

  lemma OnlyFramesInfer(e: Engine, op: EngineOp)
    ensures Infers(e, op) ==> op.Frame?
  {
  }

  /** A fail-closed engine executes nothing and stays fail-closed until something lifts the hold. */
  lemma ShutStays(e: Engine, op: EngineOp)
    requires EngineOk(e) && Shut(e) && !Lifts(e, op)
    ensures Shut(EngineStep(e, op).engine) && !Infers(e, op)
  {
    hide Framed, Loaded, GateSwitches, FinalSwitches, LoadSwitches, Infers, Step, Inv;
    OnlyFramesInfer(e, op);
    match op
    case Configure(_, _) =>
    case LoadAndWarmup(created, nowNs) => ShutLoad(e, created, nowNs);
    case Frame(f) => ShutFrame(e, f);
    case Control(c) =>
      if External(c) {
        FailClosedStays(e.controller.value, c);
      }
  }

  lemma {:induction false} ShutUntil(ops: seq<EngineOp>, i: nat, j: nat)
    requires i <= j <= |ops| && Shut(EngineAt(ops, i))
    requires forall k | i <= k < j :: !Lifts(EngineAt(ops, k), ops[k])
    ensures Shut(EngineAt(ops, j))
  {
    hide Shut, Lifts, EngineAt;
    if i < j {
      ShutUntil(ops, i, j - 1);
      EngineStepsOn(ops, j - 1);
      ShutStays(EngineAt(ops, j - 1), ops[j - 1]);
    }
  }

  /** In every engine run: if the engine is fail-closed after operation `i` and a later operation
      `j` executes an inference, then in between there was an accepted recovery request, a decision
      to switch or a new configuration, the decision at the gate of `j` included. */
  lemma NoInferenceWhileShut(ops: seq<EngineOp>, i: nat, j: nat)
    requires i < j < |ops| && Shut(EngineAt(ops, i + 1)) && Infers(EngineAt(ops, j), ops[j])
    ensures GateSwitches(EngineAt(ops, j), ops[j]) || exists k | i < k < j :: Lifts(EngineAt(ops, k), ops[k])
  {
    hide Shut, Lifts, EngineAt, Infers, GateSwitches;
    if !exists k | i < k < j :: Lifts(EngineAt(ops, k), ops[k]) {
      ShutUntil(ops, i + 1, j);
      EngineStepsOn(ops, j);
      if !GateSwitches(EngineAt(ops, j), ops[j]) {
        OnlyFramesInfer(EngineAt(ops, j), ops[j]);
        ShutFrame(EngineAt(ops, j), ops[j].input);
        assert false;
      }
    }
  }

  lemma EvaluationRaises(s: State, nowNs: int)
    requires !s.health.hold && Evaluated(s, nowNs).health.hold
    ensures Evaluated(s, nowNs).health.state == FailClosed
  {
    EvaluationIsLogged(s, nowNs);
  }

  lemma FrameRaises(e: Engine, f: FrameInput)
    requires EngineOk(e) && e.ready && !Held(e) && Held(Framed(e, f).engine)
    ensures Shut(Framed(e, f).engine) || FinalSwitches(e, Frame(f))
  {
    hide Evaluated, ObservedState, Decision, EvaluationEvents, ObservationEvents, Inv, Backed;
    var s := e.controller.value;
    var t := Evaluated(s, f.nowNs);
    EvaluatedKeepsOk(s, f.nowNs, e.pool, e.docs);
    ActiveIsNamed(t);
    if t.health.hold {
      EvaluationRaises(s, f.nowNs);
    } else if !f.outcome.Refused? {
      var u := ObservedState(t, ObservationOf(f));
      ObservedKeepsOk(t, ObservationOf(f), e.pool, e.docs);
      ObservationIsLogged(t, ObservationOf(f));
      if !u.health.hold {
        if Evaluated(u, f.doneNs).health.hold {
          EvaluationRaises(u, f.doneNs);
        }
      } else if !Decision(u, f.doneNs).shouldSwitch {
        EvaluationStaysShut(u, f.doneNs);
      }
    }
  }

  /** An operation that turns the hold on leaves the engine fail-closed, unless it is a frame whose
      last evaluation has already demoted again. */
  lemma RaisedMeansShut(e: Engine, op: EngineOp)
    requires EngineOk(e) && !Held(e) && Held(EngineStep(e, op).engine)
    ensures Shut(EngineStep(e, op).engine) || FinalSwitches(e, op)
  {
    hide Framed, Evaluated, FinalSwitches, Inv, Backed;
    match op
    case Configure(_, _) =>
    case Frame(f) =>
      if e.ready {
        FrameRaises(e, f);
      } else {
        IdleFrame(e, f);
      }
    case LoadAndWarmup(created, nowNs) => LoadRaises(e, created, nowNs);
    case Control(c) =>
      if c.Evaluate? {
        EvaluationRaises(e.controller.value, c.nowNs);
      }
  }

  lemma IdleFrame(e: Engine, f: FrameInput)
    requires !e.ready
    ensures Framed(e, f).engine == e
  {
  }

  lemma LoadRaises(e: Engine, created: nat, nowNs: int)
    requires EngineOk(e) && !Held(e) && Held(Loaded(e, created, nowNs).engine)
    ensures Shut(Loaded(e, created, nowNs).engine)
  {
    hide Evaluated, EvaluationEvents, Inv, Backed;
    var order := e.controller.value.registry.order;
    var ids := order[..Min(created, |order|)];
    assert order[..|order|] == order;
    WarmedKeepsHealth(e.(ready := false), ids);
    var t := Warmed(e.(ready := false), ids);
    if Evaluated(t.controller.value, nowNs).health.hold {
      EvaluationRaises(t.controller.value, nowNs);
    }
  }

  /** The hold that is on after operation `i` was turned on by operation `r` and never off since. */
  ghost predicate HeldSince(ops: seq<EngineOp>, r: nat, i: nat) {
    && r <= i < |ops| && !Held(EngineAt(ops, r))
    && forall k | r < k <= i + 1 :: Held(EngineAt(ops, k))
  }

  lemma {:induction false} HoldHasStart(ops: seq<EngineOp>, i: nat) returns (r: nat)
    requires i < |ops| && Held(EngineAt(ops, i + 1))
    ensures HeldSince(ops, r, i)
  {
    hide EngineRun, Held;
    if !Held(EngineAt(ops, i)) {
      r := i;
    } else if i == 0 {
      UnconfiguredIsFree(ops);
      assert false;
    } else {
      r := HoldHasStart(ops, i - 1);
    }
  }

  lemma UnconfiguredIsFree(ops: seq<EngineOp>)
    ensures !Held(EngineAt(ops, 0))
  {
  }

  /** In every engine run: if the hold is on after operation `i` and a later operation `j` executes
      an inference, then since the hold was turned on there was an accepted recovery request, a
      decision to switch or a new configuration. The operation that turned it on counts only for a
      switch it decided on after that, and `j` only for one it decided on before executing. */
  lemma NoInferenceUnderHold(ops: seq<EngineOp>, i: nat, j: nat) returns (r: nat)
    requires i < j < |ops| && Held(EngineAt(ops, i + 1)) && Infers(EngineAt(ops, j), ops[j])
    ensures HeldSince(ops, r, i)
    ensures || FinalSwitches(EngineAt(ops, r), ops[r])
            || (exists k | r < k < j :: Lifts(EngineAt(ops, k), ops[k]))
            || GateSwitches(EngineAt(ops, j), ops[j])
  {
    hide EngineAt, Infers, Lifts, FinalSwitches, GateSwitches, Shut, Held;
    r := HoldHasStart(ops, i);
    EngineStepsOn(ops, r);
    RaisedMeansShut(EngineAt(ops, r), ops[r]);
    if Shut(EngineAt(ops, r + 1)) {
      NoInferenceWhileShut(ops, r, j);
    }
  }

  /** Exactly which frames a holding engine executes: those whose gate releases the hold, that is,
      by a switch other than a demotion, or, in the degraded state, because the active profile is
      still the best. The second way needs no lift, but only a demotion under the hold leads there. */
  lemma HeldFrameInfersExactly(e: Engine, f: FrameInput)
    requires EngineOk(e) && e.ready && Held(e)
    ensures Infers(e, Frame(f)) <==> f.preprocessOk && Releases(e.controller.value, Evaluate(f.nowNs))
    ensures Infers(e, Frame(f)) && !GateSwitches(e, Frame(f)) ==> e.controller.value.health.state == Degraded
  {
    hide Evaluated, ObservedState, Decision, EvaluationEvents, ObservationEvents, Releases, Inv, Backed;
    var s := e.controller.value;
    var t := Evaluated(s, f.nowNs);
    EvaluatedKeepsOk(s, f.nowNs, e.pool, e.docs);
    ActiveIsNamed(t);
    HoldReleasedExactly(s, Evaluate(f.nowNs));
    if Releases(s, Evaluate(f.nowNs)) {
      ReleaseNeedsActive(s, f.nowNs);
    }
    LookupsSucceed(t, e.pool, e.docs);
  }

  lemma ReleaseNeedsActive(s: State, nowNs: int)
    requires Inv(s) && s.health.hold && Releases(s, Evaluate(nowNs))
    ensures Evaluated(s, nowNs).active.Some?
    ensures Decision(s, nowNs).shouldSwitch || s.health.state == Degraded
  {
    SelectionEffect(s, nowNs, Judge(s, nowNs));
  }

  lemma LookupsSucceed(s: State, pool: set<string>, docs: set<string>)
    requires Inv(s) && Backed(s, pool, docs)
    ensures s.active.Some? ==> s.active.value in pool && s.active.value in docs
  {
  }
}
