/** The runtime engine around the controller: set-up, warm-up and the gate that decides whether a
    frame is executed and to which profile it is attributed. Inference itself is an arbitrary
    outcome, and bundles and clock readings are given values. */
module EngineModel {
  import opened Common
  import opened Profiles
  import opened HealthMachines
  import opened LatencyEstimators
  import opened ControllerModel

  /** A profile as the bundle describes it; every profile starts cold and healthy. */
  datatype BundleEntry = BundleEntry(
    id: string,
    status: ProfileStatus,
    certifiedQuality: real,
    certifiedP99Ms: real,
    offlineEnvelopeMs: real,
    utility: real)

  function NewProfile(b: BundleEntry): Profile {
    Profile(b.status, b.certifiedQuality, b.certifiedP99Ms, b.offlineEnvelopeMs, b.utility, false, true, 0, 0)
  }

  /** `pool` and `docs` are the ids that have a session and a profile document. */
  datatype Engine = Engine(
    configured: bool,
    ready: bool,
    controller: Option<State>,
    pool: set<string>,
    docs: set<string>)

  const UNCONFIGURED: Engine := Engine(false, false, None, {}, {})

  datatype ExecOutcome =
    | Refused
    | Failed
    | Succeeded(executorMs: real, confidence: real)

  /** A frame with everything the outside world contributes to it: the clock before and after,
      whether its preprocess document parses, and what the executor returns. */
  datatype FrameInput = FrameInput(
    nowNs: int,
    doneNs: int,
    preprocessOk: bool,
    sourceStale: bool,
    confidenceHint: real,
    outcome: ExecOutcome)

  datatype FrameError =
    | NoError
    | NotReady
    | HeldBack
    | SessionMissing
    | DocumentMissing
    | PreprocessInvalid
    | ExecutorRefused
    | ExecutionFailed
    | HeldAfterwards

  datatype FrameResult = FrameResult(
    ok: bool,
    hold: bool,
    holdReason: ReasonCode,
    healthState: HealthState,
    executedProfileId: string,
    nextActiveProfileId: string,
    activeProfileId: string,
    lastSwitchReason: Option<SwitchReason>,
    error: FrameError)

  /** What an observer of the engine sees, in order. */
  datatype Event =
    | Configured
    | HoldRaised
    | Switched(to: string)
    | Recovered
    | Executed(id: string)

  datatype Outcome = Outcome(engine: Engine, result: FrameResult, events: seq<Event>)

  function EvaluationEvents(s: State, nowNs: int): seq<Event> {
    match Judge(s, nowNs)
    case PinSwitch(id) => [Switched(id)]
    case Startup(id) => [Switched(id)]
    case Demotion(id, _) => [Switched(id)]
    case Promotion(id) => [Switched(id)]
    case NoneEligible => if s.policy.failClosedOnNoEligibleProfile then [HoldRaised] else []
    case _ => []
  }

  function ObservationEvents(s: State, obs: FrameObservation): seq<Event> {
    if obs.sourceStale && s.policy.failClosedOnStaleInput then [HoldRaised] else []
  }

  // run_active_inference

  function HealthOf(r: FrameResult, s: State): FrameResult {
    r.(healthState := s.health.state, hold := s.health.hold, holdReason := s.health.holdReason)
  }

  function Gated(reason: SwitchReason, s: State): FrameResult {
    HealthOf(FrameResult(false, false, NoReason, Starting, "", "", "", Some(reason), NoError), s)
  }

  function ObservationOf(f: FrameInput): FrameObservation
    requires !f.outcome.Refused?
  {
    match f.outcome
    case Failed => FrameObservation(f.doneNs, 0.0, false, -1.0, f.sourceStale)
    case Succeeded(ms, confidence) =>
      FrameObservation(f.doneNs, ms, true, if f.confidenceHint >= 0.0 then f.confidenceHint else confidence, f.sourceStale)
  }

  function Framed(e: Engine, f: FrameInput): Outcome {
    if !e.ready || e.controller.None? then
      Outcome(e, FrameResult(false, true, EngineNotReady, FailClosed, "", "", "", None, NotReady), [])
    else
      var s := e.controller.value;
      var t := Evaluated(s, f.nowNs);
      var gate := Outcome(e.(controller := Some(t)), Gated(Decision(s, f.nowNs).reason, t), EvaluationEvents(s, f.nowNs));
      if t.active.None? || t.health.hold then gate.(result := gate.result.(error := HeldBack))
      else Attempted(gate, t.active.value, t, f)
  }

  /** Past the gate: the active profile is recorded, looked up and executed. */
  function Attempted(gate: Outcome, id: string, t: State, f: FrameInput): Outcome {
    var r := gate.result.(executedProfileId := id, activeProfileId := id, nextActiveProfileId := id);
    if id !in gate.engine.pool then gate.(result := r.(error := SessionMissing))
    else if id !in gate.engine.docs then gate.(result := r.(error := DocumentMissing))
    else if !f.preprocessOk then gate.(result := r.(error := PreprocessInvalid))
    else ExecutedFrame(gate.(result := r, events := gate.events + [Executed(id)]), t, f)
  }

  /** After the executor has run: the observation, the second evaluation, the final result. */
  function ExecutedFrame(o: Outcome, t: State, f: FrameInput): Outcome {
    if f.outcome.Refused? then o.(result := o.result.(error := ExecutorRefused))
    else
      var obs := ObservationOf(f);
      var u := ObservedState(t, obs);
      var v := Evaluated(u, f.doneNs);
      var r := HealthOf(o.result, v);
      var finished :=
        if f.outcome.Failed? then r.(error := ExecutionFailed)
        else r.(ok := !v.health.hold, error := if v.health.hold then HeldAfterwards else NoError,
                lastSwitchReason := Some(Decision(u, f.doneNs).reason),
                nextActiveProfileId := if v.active.Some? then v.active.value else r.nextActiveProfileId);
      Outcome(o.engine.(controller := Some(v)), finished,
              o.events + ObservationEvents(t, obs) + EvaluationEvents(u, f.doneNs))
  }

  // configure

  datatype Registration = Registration(ok: bool, registry: Registry, docs: set<string>)

  /** Every profile document is kept; only certified profiles are registered, and an empty or
      repeated id stops the registration. */
  function Registered(entries: seq<BundleEntry>): Registration {
    if entries == [] then Registration(true, Registry([], map[]), {})
    else
      var r := Registered(entries[..|entries| - 1]);
      var b := entries[|entries| - 1];
      if !r.ok then r
      else if !b.status.Certified? then r.(docs := r.docs + {b.id})
      else if b.id == "" || b.id in r.registry.profiles then Registration(false, r.registry, r.docs + {b.id})
      else Registration(true, Registry(r.registry.order + [b.id], r.registry.profiles[b.id := NewProfile(b)]), r.docs + {b.id})
  }

  /** `bundle` is None when anything before the registration fails. */
  function Configuration(bundle: Option<seq<BundleEntry>>, policy: RuntimePolicy): Engine {
    if bundle.None? then UNCONFIGURED
    else
      var r := Registered(bundle.value);
      if !r.ok || r.registry.order == [] then UNCONFIGURED.(docs := r.docs)
      else Engine(true, false, Some(Initial(policy, r.registry)), {}, r.docs)
  }

  // load_and_warmup

  /** The first `count` profiles of the registry get a session and are marked as warmed. */
  function Warmed(e: Engine, ids: seq<string>): Engine
    requires e.controller.Some?
    ensures Warmed(e, ids).controller.Some?
  {
    if ids == [] then e
    else
      var t := Warmed(e, ids[..|ids| - 1]);
      var id := ids[|ids| - 1];
      t.(pool := t.pool + {id}, controller := Some(MarkedWarmed(t.controller.value, id)))
  }

  /** `created` sessions are created before the first failure, all of them if it is large enough. */
  function Loaded(e: Engine, created: nat, nowNs: int): Outcome {
    var none := FrameResult(false, false, NoReason, Starting, "", "", "", None, NoError);
    if !e.configured || e.controller.None? then Outcome(e, none, [])
    else
      var order := e.controller.value.registry.order;
      if created < |order| then Outcome(Warmed(e.(ready := false), order[..created]), none, [])
      else
        var t := Warmed(e.(ready := false), order);
        if t.pool == {} then Outcome(t, none, [])
        else
          var s := Evaluated(t.controller.value, nowNs);
          Outcome(t.(controller := Some(s), ready := s.active.Some?), none.(ok := s.active.Some?),
                  EvaluationEvents(t.controller.value, nowNs))
  }

  // Runs

  datatype EngineOp =
    | Configure(bundle: Option<seq<BundleEntry>>, policy: RuntimePolicy)
    | LoadAndWarmup(created: nat, nowNs: int)
    | Frame(input: FrameInput)
    | Control(op: Op)

  /** The calls that reach the controller from outside the engine: operator requests, policy
      updates and the timer's evaluations. Observations only come from frames. */
  predicate External(op: Op) {
    !op.Observe? && !op.MarkWarmed?
  }

  function Controlled(e: Engine, op: Op): Outcome {
    var none := FrameResult(false, false, NoReason, Starting, "", "", "", None, NoError);
    if e.controller.None? || !External(op) then Outcome(e, none, [])
    else
      var s := e.controller.value;
      Outcome(e.(controller := Some(Step(s, op))), none,
              match op
              case Evaluate(nowNs) => EvaluationEvents(s, nowNs)
              case RequestRecovery => if RecoveryAccepted(s) then [Recovered] else []
              case _ => [])
  }

  function EngineStep(e: Engine, op: EngineOp): Outcome {
    match op
    case Configure(bundle, policy) =>
      Outcome(Configuration(bundle, policy), FrameResult(false, false, NoReason, Starting, "", "", "", None, NoError),
              [Configured])
    case LoadAndWarmup(created, nowNs) => Loaded(e, created, nowNs)
    case Frame(input) => Framed(e, input)
    case Control(op) => Controlled(e, op)
  }

  datatype Trace = Trace(engine: Engine, log: seq<Event>)

  function EngineRun(ops: seq<EngineOp>): Trace {
    if ops == [] then Trace(UNCONFIGURED, [])
    else
      var before := EngineRun(ops[..|ops| - 1]);
      var o := EngineStep(before.engine, ops[|ops| - 1]);
      Trace(o.engine, before.log + o.events)
  }
}
