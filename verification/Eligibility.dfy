/** The predicate that every switch target has to meet. */
module Eligibility {
  import opened Common
  import opened Profiles

  datatype Rejection =
    | NotCertified
    | NotWarmed
    | CoolingDown
    | UnhealthyHardFail
    | UnhealthyRequiresRecovery
    | QualityBelowFloor
    | DeadlineBoundExceeded

  predicate IsEligible(p: Profile, policy: RuntimePolicy, onlineBoundMs: real, nowNs: int) {
    && p.status.Certified?
    && p.warmed
    && p.cooldownUntilNs <= nowNs
    && (p.healthy || Retryable(p, policy))
    && p.certifiedQuality >= policy.minimumQualityValue
    && onlineBoundMs <= policy.deadlineMs
    && p.offlineEnvelopeMs * policy.offlineEnvelopeWeight <= policy.deadlineMs
  }

  /** After its cooldown an unhealthy profile gets another chance until it has failed too often. */
  predicate Retryable(p: Profile, policy: RuntimePolicy) {
    p.cooldownUntilNs != INT64_MAX && p.failureCount < policy.maxTransientFailures
  }

  /** The list of reasons is empty exactly for eligible profiles, and each reason is reported
      exactly when its condition holds. */
  method EvaluateEligibility(p: Profile, policy: RuntimePolicy, onlineBoundMs: real, nowNs: int)
    returns (eligible: bool, reasons: seq<Rejection>)
    ensures eligible <==> reasons == []
    ensures eligible <==> IsEligible(p, policy, onlineBoundMs, nowNs)
    ensures NotCertified in reasons <==> !p.status.Certified?
    ensures NotWarmed in reasons <==> !p.warmed
    ensures CoolingDown in reasons <==> p.cooldownUntilNs > nowNs
    ensures UnhealthyHardFail in reasons <==>
            p.cooldownUntilNs <= nowNs && !p.healthy && p.cooldownUntilNs == 0x7FFF_FFFF_FFFF_FFFF
    ensures UnhealthyRequiresRecovery in reasons <==>
            p.cooldownUntilNs <= nowNs && !p.healthy && p.cooldownUntilNs != 0x7FFF_FFFF_FFFF_FFFF
            && p.failureCount >= policy.maxTransientFailures
    ensures QualityBelowFloor in reasons <==> p.certifiedQuality < policy.minimumQualityValue
    ensures DeadlineBoundExceeded in reasons <==>
            onlineBoundMs > policy.deadlineMs
            || p.offlineEnvelopeMs * policy.offlineEnvelopeWeight > policy.deadlineMs
  {
    reasons := [];
    if !p.status.Certified? {
      reasons := reasons + [NotCertified];
    }
    if !p.warmed {
      reasons := reasons + [NotWarmed];
    }
    var cooling := p.cooldownUntilNs > nowNs;
    var hardFailed := p.cooldownUntilNs == INT64_MAX;
    if cooling {
      reasons := reasons + [CoolingDown];
    } else if !p.healthy {
      if hardFailed {
        reasons := reasons + [UnhealthyHardFail];
      } else if p.failureCount >= policy.maxTransientFailures {
        reasons := reasons + [UnhealthyRequiresRecovery];
      }
    }
    if p.certifiedQuality < policy.minimumQualityValue {
      reasons := reasons + [QualityBelowFloor];
    }
    var bound := RMax(onlineBoundMs, p.offlineEnvelopeMs * policy.offlineEnvelopeWeight);
    if bound > policy.deadlineMs {
      reasons := reasons + [DeadlineBoundExceeded];
    }
    eligible := reasons == [];
  }
}
