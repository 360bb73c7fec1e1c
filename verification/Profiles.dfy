/** Profiles, the runtime policy and the registry that the engine shares with its controller.
    The registry hands out references into a hash map; here a profile is addressed by its id. */
module Profiles {
  import opened Common

  const INT64_MAX: int := 0x7FFF_FFFF_FFFF_FFFF

  datatype ProfileStatus = Certified | Rejected | Draft

  datatype Profile = Profile(
    status: ProfileStatus,
    certifiedQuality: real,
    certifiedP99Ms: real,
    offlineEnvelopeMs: real,
    utility: real,
    warmed: bool,
    healthy: bool,
    failureCount: int,
    cooldownUntilNs: int)

  datatype RuntimePolicy = RuntimePolicy(
    deadlineMs: real,
    minimumDwellMs: real,
    promotionConfirmationFrames: int,
    demotionConfirmationFrames: int,
    deadlineMissWindowFrames: int,
    deadlineMissThreshold: int,
    latencyWindowSamples: nat,
    latencyQuantile: real,
    latencyMarginMs: real,
    latencyMadMultiplier: real,
    offlineEnvelopeWeight: real,
    minimumQualityValue: real,
    confidenceEscalationEnabled: bool,
    confidenceEscalationThreshold: real,
    manualPinMaximumSeconds: int,
    failClosedOnStaleInput: bool,
    failClosedOnNoEligibleProfile: bool,
    recoverConfirmationFrames: int,
    maxTransientFailures: int)

  /** The checks a policy update has to pass. */
  predicate PolicyAccepted(p: RuntimePolicy) {
    && p.deadlineMs > 0.0
    && p.demotionConfirmationFrames >= 1
    && p.promotionConfirmationFrames >= 1
    && p.maxTransientFailures >= 1
  }

  /** The value of a registry: `order` is the iteration order of the hash map. */
  datatype Registry = Registry(order: seq<string>, profiles: map<string, Profile>)

  ghost predicate RegistryOk(r: Registry) {
    && NoDuplicates(r.order)
    && (forall id :: id in r.order <==> id in r.profiles)
    && "" !in r.profiles
  }

  class ProfileRegistry {
    var order: seq<string>
    var profiles: map<string, Profile>

    constructor ()
      ensures View() == Registry([], map[])
    {
      order := [];
      profiles := map[];
    }

    ghost function View(): Registry
      reads this
    {
      Registry(order, profiles)
    }

    method Add(id: string, profile: Profile) returns (ok: bool)
      requires RegistryOk(View())
      modifies this
      ensures RegistryOk(View())
      ensures ok <==> id != "" && id !in old(profiles)
      ensures profiles == if ok then old(profiles)[id := profile] else old(profiles)
      ensures order == if ok then old(order) + [id] else old(order)
    {
      if id == "" || id in profiles {
        return false;
      }
      profiles := profiles[id := profile];
      order := order + [id];
      return true;
    }
  }
}
