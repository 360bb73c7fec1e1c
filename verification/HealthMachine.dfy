/** The health states of the runtime, the control hold and the transition history. */
module HealthMachines {

  datatype HealthState = Starting | Ready | Degraded | FailClosed | Recovering | Stopping

  /** The reason codes, and `NoReason` for the empty string. */
  datatype ReasonCode =
    | NoReason
    | InputStale
    | InferenceFailed
    | NoEligibleProfile
    | PinnedProfile
    | StartupProfileSelected
    | ActiveProfileStable
    | ProfileSwitchDemotion
    | ProfileSwitchPromotion
    | RecoveryConfirmed
    | OperatorRecoveryRequest
    | EngineNotReady

  datatype HealthTransition = HealthTransition(from: HealthState, to: HealthState, reason: ReasonCode)

  datatype Health = Health(
    state: HealthState,
    hold: bool,
    holdReason: ReasonCode,
    history: seq<HealthTransition>)

  const INITIAL: Health := Health(Starting, false, NoReason, [])

  /** A transition to the current state leaves no trace. */
  function Moved(h: Health, to: HealthState, reason: ReasonCode): Health {
    if h.state == to then h
    else h.(state := to, history := h.history + [HealthTransition(h.state, to, reason)])
  }

  function SetReady(h: Health, reason: ReasonCode): Health {
    Moved(h.(hold := false, holdReason := NoReason), Ready, reason)
  }

  function SetDegraded(h: Health, reason: ReasonCode): Health {
    Moved(h, Degraded, reason)
  }

  function SetFailClosed(h: Health, reason: ReasonCode): Health {
    Moved(h.(hold := true, holdReason := reason), FailClosed, reason)
  }

  function BeginRecovery(h: Health, reason: ReasonCode): Health {
    Moved(h, Recovering, reason)
  }

  function ClearHold(h: Health): Health {
    h.(hold := false, holdReason := NoReason)
  }

  function SetStopping(h: Health, reason: ReasonCode): Health {
    Moved(h, Stopping, reason)
  }

  /** The history leads from `from` to `to`: every step starts where the one before it ended, and
      no step stays where it is. */
  ghost predicate Chains(history: seq<HealthTransition>, from: HealthState, to: HealthState) {
    if history == [] then from == to
    else
      var last := history[|history| - 1];
      last.to == to && last.from != to && Chains(history[..|history| - 1], from, last.from)
  }

  /** What every run keeps: fail-closed implies the hold, the hold occurs only in fail-closed
      and degraded, it is on exactly when it has a reason, and the history is complete. */
  ghost predicate HealthInv(h: Health) {
    && (h.state == FailClosed ==> h.hold)
    && (h.hold ==> h.state == FailClosed || h.state == Degraded)
    && (h.hold <==> h.holdReason != NoReason)
    && Chains(h.history, Starting, h.state)
  }

  class HealthMachine {
    var state: HealthState
    var hold: bool
    var holdReason: ReasonCode
    var history: seq<HealthTransition>

    constructor ()
      ensures View() == INITIAL
    {
      state, hold, holdReason, history := Starting, false, NoReason, [];
    }

    ghost function View(): Health
      reads this
    {
      Health(state, hold, holdReason, history)
    }

    method Transition(to: HealthState, reason: ReasonCode)
      modifies this
      ensures View() == Moved(old(View()), to, reason)
      ensures state == to && hold == old(hold) && holdReason == old(holdReason)
      ensures history == if old(state) == to then old(history)
                         else old(history) + [HealthTransition(old(state), to, reason)]
    {
      if state == to {
        return;
      }
      history := history + [HealthTransition(state, to, reason)];
      state := to;
    }

    method MakeReady(reason: ReasonCode)
      modifies this
      ensures View() == SetReady(old(View()), reason)
      ensures state == Ready && !hold && holdReason == NoReason
      ensures history == if old(state) == Ready then old(history)
                         else old(history) + [HealthTransition(old(state), Ready, reason)]
    {
      hold := false;
      holdReason := NoReason;
      Transition(Ready, reason);
    }

    method MakeDegraded(reason: ReasonCode)
      modifies this
      ensures View() == SetDegraded(old(View()), reason)
      ensures state == Degraded && hold == old(hold) && holdReason == old(holdReason)
      ensures history == if old(state) == Degraded then old(history)
                         else old(history) + [HealthTransition(old(state), Degraded, reason)]
    {
      Transition(Degraded, reason);
    }

    method FailClosed(reason: ReasonCode)
      modifies this
      ensures View() == SetFailClosed(old(View()), reason)
      ensures state == HealthState.FailClosed && hold && holdReason == reason
      ensures history == if old(state) == HealthState.FailClosed then old(history)
                         else old(history) + [HealthTransition(old(state), HealthState.FailClosed, reason)]
    {
      hold := true;
      holdReason := reason;
      Transition(HealthState.FailClosed, reason);
    }

    method StartRecovery(reason: ReasonCode)
      modifies this
      ensures View() == BeginRecovery(old(View()), reason)
      ensures state == Recovering && hold == old(hold) && holdReason == old(holdReason)
      ensures history == if old(state) == Recovering then old(history)
                         else old(history) + [HealthTransition(old(state), Recovering, reason)]
    {
      Transition(Recovering, reason);
    }

    method Stop(reason: ReasonCode)
      modifies this
      ensures View() == SetStopping(old(View()), reason)
      ensures state == Stopping && hold == old(hold) && holdReason == old(holdReason)
      ensures history == if old(state) == Stopping then old(history)
                         else old(history) + [HealthTransition(old(state), Stopping, reason)]
    {
      Transition(Stopping, reason);
    }

    method ReleaseHold()
      modifies this
      ensures View() == ClearHold(old(View()))
      ensures state == old(state) && !hold && holdReason == NoReason && history == old(history)
    {
      hold := false;
      holdReason := NoReason;
    }
  }
}
