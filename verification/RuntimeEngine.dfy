/** The engine as the program runs it: flags, the session pool, the profile documents and a
    controller that shares the engine's registry. Its ghost log records what an observer sees. */
module RuntimeEngines {
  import opened Common
  import opened Profiles
  import opened HealthMachines
  import opened ControllerModel
  import opened Controllers
  import opened EngineModel

  class RuntimeEngine {
    var configured: bool
    var ready: bool
    var controller: Controller?
    var pool: set<string>
    var docs: set<string>
    ghost var log: seq<Event>

    ghost function Parts(): set<object>
      reads this`controller
    {
      if controller == null then {} else {controller, controller.registry, controller.health}
    }

    ghost predicate Valid()
      reads this, Parts()
    {
      controller != null ==> controller.Valid()
    }

    ghost function View(): Engine
      reads this, Parts()
    {
      Engine(configured, ready, if controller == null then None else Some(controller.View()), pool, docs)
    }

    constructor ()
      ensures Valid() && View() == UNCONFIGURED && log == [] && Parts() == {}
    {
      configured, ready, controller, pool, docs, log := false, false, null, {}, {}, [];
    }

    method Configure(bundle: Option<seq<BundleEntry>>, policy: RuntimePolicy)
      modifies this
      ensures Valid() && fresh(Parts())
      ensures View() == Configuration(bundle, policy)
      ensures log == old(log) + [Configured]
    {
      configured, ready, controller, pool, docs := false, false, null, {}, {};
      log := log + [Configured];
      if bundle.None? {
        return;
      }
      var entries := bundle.value;
      var registry := new ProfileRegistry();
      for i := 0 to |entries|
        invariant !configured && !ready && controller == null && pool == {}
        invariant log == old(log) + [Configured]
        invariant fresh(registry)
        invariant RegistryOk(registry.View())
        invariant Registered(entries[..i]) == Registration(true, registry.View(), docs)
      {
        assert entries[..i + 1][..i] == entries[..i];
        var b := entries[i];
        docs := docs + {b.id};
        if b.status.Certified? {
          var added := registry.Add(b.id, NewProfile(b));
          if !added {
            FailureSticks(entries, i + 1);
            return;
          }
        }
      }
      assert entries[..|entries|] == entries;
      if registry.order == [] {
        return;
      }
      controller := new Controller(policy, registry);
      configured := true;
    }

    method LoadAndWarmup(created: nat, nowNs: int) returns (ok: bool)
      requires Valid()
      modifies this, Parts()
      ensures Valid() && Parts() == old(Parts())
      ensures View() == Loaded(old(View()), created, nowNs).engine
      ensures ok == Loaded(old(View()), created, nowNs).result.ok
      ensures log == old(log) + Loaded(old(View()), created, nowNs).events
    {
      if !configured || controller == null {
        return false;
      }
      ready := false;
      var complete := CreateSessions(created);
      if !complete || pool == {} {
        return false;
      }
      ok := SelectInitial(nowNs);
    }

    method SelectInitial(nowNs: int) returns (ok: bool)
      requires Valid() && controller != null && !ready
      modifies this`ready, this`log, controller, controller.health
      ensures Valid() && Parts() == old(Parts())
      ensures var s := Evaluated(old(controller.View()), nowNs);
              ok == s.active.Some? && View() == old(View()).(controller := Some(s), ready := ok)
      ensures log == old(log) + EvaluationEvents(old(controller.View()), nowNs)
    {
      log := log + EvaluationEvents(controller.View(), nowNs);
      var _ := controller.EvaluateSwitch(nowNs);
      if controller.active.None? {
        return false;
      }
      ready := true;
      return true;
    }

    /** Creates, warms and pools one session per profile until the first failure. */
    method CreateSessions(created: nat) returns (complete: bool)
      requires Valid() && controller != null
      modifies this`pool, controller`estimators, controller.registry
      ensures Valid() && Parts() == old(Parts())
      ensures var order := old(controller.registry.order);
              && complete == (created >= |order|)
              && View() == Warmed(old(View()), if complete then order else order[..created])
    {
      var order := controller.registry.order;
      ghost var e := View();
      for i := 0 to |order|
        invariant Valid() && Parts() == old(Parts()) && controller != null && controller.registry.order == order
        invariant i <= created && View() == Warmed(e, order[..i])
      {
        assert order[..i + 1][..i] == order[..i];
        if i == created {
          return false;
        }
        pool := pool + {order[i]};
        controller.MarkProfileWarmed(order[i]);
      }
      assert order[..|order|] == order;
      return true;
    }

    method RunActiveInference(f: FrameInput) returns (r: FrameResult)
      requires Valid()
      modifies this`log, Parts()
      ensures Valid() && Parts() == old(Parts())
      ensures View() == Framed(old(View()), f).engine
      ensures r == Framed(old(View()), f).result
      ensures log == old(log) + Framed(old(View()), f).events
    {
      hide Attempted, RegistryOk, Evaluated, EvaluationEvents, Decision;
      if !ready || controller == null {
        return FrameResult(false, true, EngineNotReady, HealthState.FailClosed, "", "", "", None, NotReady);
      }
      log := log + EvaluationEvents(controller.View(), f.nowNs);
      var decision := controller.EvaluateSwitch(f.nowNs);
      r := FrameResult(false, controller.health.hold, controller.health.holdReason, controller.health.state,
                       "", "", "", Some(decision.reason), NoError);
      if controller.active.None? || r.hold {
        r := r.(error := HeldBack);
        return;
      }
      ghost var gate := Outcome(View(), r, EvaluationEvents(old(View()).controller.value, f.nowNs));
      r := Execute(controller.active.value, f, r, gate, old(log));
    }

    method Execute(id: string, f: FrameInput, gated: FrameResult, ghost gate: Outcome, ghost before: seq<Event>)
      returns (r: FrameResult)
      requires Valid() && controller != null
      requires gate == Outcome(View(), gated, gate.events) && log == before + gate.events
      modifies this`log, Parts()
      ensures Valid() && Parts() == old(Parts())
      ensures var o := Attempted(gate, id, old(View()).controller.value, f);
              View() == o.engine && r == o.result && log == before + o.events
    {
      r := gated.(executedProfileId := id, activeProfileId := id, nextActiveProfileId := id);
      if id !in pool {
        return r.(error := SessionMissing);
      }
      if id !in docs {
        return r.(error := DocumentMissing);
      }
      if !f.preprocessOk {
        return r.(error := PreprocessInvalid);
      }
      ghost var executing := gate.(result := r, events := gate.events + [Executed(id)]);
      log := before + executing.events;
      if f.outcome.Refused? {
        return r.(error := ExecutorRefused);
      }
      r := Conclude(f, r, executing, before);
    }

    /** The observation and the second evaluation after an execution. */
    method Conclude(f: FrameInput, base: FrameResult, ghost executing: Outcome, ghost before: seq<Event>)
      returns (r: FrameResult)
      requires Valid() && controller != null && !f.outcome.Refused?
      requires executing == Outcome(View(), base, executing.events)
      modifies this`log, Parts()
      ensures Valid() && Parts() == old(Parts())
      ensures var o := ExecutedFrame(executing, old(View()).controller.value, f);
              View() == o.engine && r == o.result && log == before + o.events
    {
      hide ObservedState, RegistryOk, Evaluated, EvaluationEvents, ObservationEvents, Decision;
      var obs := ObservationOf(f);
      ghost var events := executing.events + ObservationEvents(controller.View(), obs);
      controller.Observe(obs);
      log := before + (events + EvaluationEvents(controller.View(), f.doneNs));
      var after := controller.EvaluateSwitch(f.doneNs);
      r := base.(healthState := controller.health.state, hold := controller.health.hold,
                 holdReason := controller.health.holdReason);
      if f.outcome.Failed? {
        r := r.(error := ExecutionFailed);
      } else {
        r := r.(lastSwitchReason := Some(after.reason));
        if controller.active.Some? {
          r := r.(nextActiveProfileId := controller.active.value);
        }
        r := r.(ok := !r.hold, error := if r.hold then HeldAfterwards else NoError);
      }
    }
  }

  /** A failed registration stays failed, and stops collecting. */
  lemma {:induction false} FailureSticks(entries: seq<BundleEntry>, i: nat)
    requires i <= |entries| && !Registered(entries[..i]).ok
    ensures Registered(entries) == Registered(entries[..i])
  {
    if i == |entries| {
      assert entries[..i] == entries;
    } else {
      var shorter := entries[..|entries| - 1];
      assert shorter[..i] == entries[..i];
      FailureSticks(shorter, i);
    }
  }
}
