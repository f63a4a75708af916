/** The policy decision engine (`decision_engine.py`): validation, then the safety gates, and
    the mapping of every failure to a rejection reason. */
module DecisionEngine {
  import opened Common
  import opened TrustStore
  import opened Validator
  import opened Policy

  datatype Decision = Approve | Reject

  datatype PolicyResult = PolicyResult(decision: Decision, reason: Option<RejectionReason>, validatedClaims: Option<Claims>)

  const JWT_MAPPING: map<string, RejectionReason> := map[
    "invalid_signature" := InvalidSignature,
    "expired_token" := ExpiredToken,
    "invalid_audience" := InvalidAudience,
    "missing_claim" := MissingClaim,
    "cross_validation_failed" := CrossValidationFailed,
    "untrusted_node" := UntrustedNode,
    "invalid_nonce" := InvalidNonce,
    "invalid_public_key" := UntrustedNode,
    "invalid_issuer" := CrossValidationFailed,
    "clock_skew_exceeded" := ClockSkewExceeded]

  const GATE_MAPPING: map<string, RejectionReason> := map[
    "funding_threshold_exceeded" := FundingExceeded,
    "safety_gate_triggered" := SafetyViolation,
    "negative_value_realization" := ValueNegative,
    "sla_penalty_exposure_exceeded" := SlaPenaltyExceeded,
    "max_throughput_deviation" := ThroughputDeviation]

  function MapJwtError(reason: string): RejectionReason {
    if reason in JWT_MAPPING then JWT_MAPPING[reason] else InvalidSignature
  }

  function MapGateRejection(reason: Option<RejectionReason>): Option<RejectionReason> {
    match reason
    case None => None
    case Some(r) => Some(if Value(r) in GATE_MAPPING then GATE_MAPPING[Value(r)] else SafetyViolation)
  }

  /** `evaluate` on values: the result and the nonce cache it leaves. */
  function Evaluation(p: Params, c: Crypto, cfg: MamaConfig, k: Keys, seen: Seen, x: Payload, cei: CeiMetrics, t1: real, t2: real)
    : (PolicyResult, Seen)
  {
    var (validated, after) := Validation(p, c, k, seen, x, t1, t2);
    if validated.Rejected? then
      (PolicyResult(Reject, Some(MapJwtError(validated.reason)), None), after)
    else
      var v := GateVerdict(cfg, x.currentEdns, cei);
      if !v.approved then
        (PolicyResult(Reject, MapGateRejection(v.reason), None), after)
      else
        (PolicyResult(Approve, None, Some(validated.claims)), after)
  }

  class PolicyDecisionEngine {
    const jwtValidator: NhpJwtValidator
    const config: MamaConfig

    constructor (jwtValidator: NhpJwtValidator, config: MamaConfig)
      ensures this.jwtValidator == jwtValidator && this.config == config
    {
      this.jwtValidator, this.config := jwtValidator, config;
    }

    method Evaluate(x: Payload, cei: CeiMetrics, t1: real, t2: real) returns (r: PolicyResult)
      requires jwtValidator.Valid()
      modifies jwtValidator`seenNonces
      ensures jwtValidator.Valid()
      ensures (r, jwtValidator.seenNonces) ==
        Evaluation(jwtValidator.params, jwtValidator.crypto, config, jwtValidator.trustStore.Contents(),
                   old(jwtValidator.seenNonces), x, cei, t1, t2)
    {
      var validated := jwtValidator.Validate(x, t1, t2);
      if validated.Rejected? {
        return PolicyResult(Reject, Some(MapJwtError(validated.reason)), None);
      }
      var v := Policy.Evaluate(config, x.currentEdns, cei);
      if !v.approved {
        return PolicyResult(Reject, MapGateRejection(v.reason), None);
      }
      return PolicyResult(Approve, None, Some(validated.claims));
    }
  }

  // The reason reported for each of the sixteen validation checks.
  const REPORTED := [
    UntrustedNode, UntrustedNode, InvalidSignature, MissingClaim, CrossValidationFailed,
    InvalidAudience, MissingClaim, ExpiredToken, ClockSkewExceeded, MissingClaim,
    MissingClaim, MissingClaim, CrossValidationFailed, CrossValidationFailed,
    CrossValidationFailed, InvalidNonce]

  lemma MappingsAgree(i: nat)
    ensures i < |REASONS| ==> MapJwtError(REASONS[i]) == REPORTED[i]
    ensures i < |GATE_ORDER| ==> MapGateRejection(Some(GATE_ORDER[i])) == Some(GATE_ORDER[i])
  {
  }

  /** The reason of every check but the first (invalid key) and the fifth (issuer) keeps its name
      through the mapping; those two become an untrusted node and a failed cross-validation, and a
      reason that no check gives an invalid signature. */
  lemma JwtMappingKeepsNames(i: nat, reason: string)
    ensures i < |REASONS| && i != 0 && i != 4 ==>
      Value(MapJwtError(REASONS[i])) == REASONS[i]
    ensures MapJwtError("invalid_public_key") == UntrustedNode && MapJwtError("invalid_issuer") == CrossValidationFailed
    ensures reason !in REASONS ==> MapJwtError(reason) == InvalidSignature
  {
    Renamed();
    hide MapJwtError, Value;
    MappingsAgree(i);
    ReportedName(i);
    UnknownReason(reason);
  }

  lemma Renamed()
    ensures MapJwtError("invalid_public_key") == UntrustedNode && MapJwtError("invalid_issuer") == CrossValidationFailed
  {
  }

  lemma ReportedName(i: nat)
    ensures i < |REASONS| && i != 0 && i != 4 ==>
      Value(REPORTED[i]) == REASONS[i]
  {
  }

  lemma UnknownReason(reason: string)
    ensures reason !in REASONS ==> MapJwtError(reason) == InvalidSignature
  {
    assert REASONS[0] == "invalid_public_key" && REASONS[1] == "untrusted_node" && REASONS[2] == "invalid_signature";
    assert REASONS[3] == "missing_claim" && REASONS[4] == "invalid_issuer" && REASONS[5] == "invalid_audience";
    assert REASONS[7] == "expired_token" && REASONS[8] == "clock_skew_exceeded";
    assert REASONS[12] == "cross_validation_failed" && REASONS[15] == "invalid_nonce";
  }

  /** APPROVE means every validation check and every gate inequality passed; a REJECT always has
      a reason, that of the first failing check in pipeline order. Only a request that passes
      validation touches the nonce cache. */
  lemma DecisionIsFirstFailure(
      p: Params, c: Crypto, cfg: MamaConfig, k: Keys, seen: Seen, x: Payload, cei: CeiMetrics, t1: real, t2: real)
    ensures var (r, after) := Evaluation(p, c, cfg, k, seen, x, cei, t1, t2);
      var checked := forall i | 0 <= i < |REASONS| :: Passes(i, p, c, k, seen, x, t1);
      && (r.decision == Approve <==> checked && forall g | g in GATE_ORDER :: !Violated(cfg, x.currentEdns, cei, g))
      && (r.decision == Approve ==> r.reason == None && r.validatedClaims == Some(ClaimsIn(c, x)))
      && (r.decision == Reject ==> r.validatedClaims == None)
      && (!checked ==> after == seen)
      && (!checked ==> exists i: nat :: FirstFailure(i, p, c, k, seen, x, t1) && r.reason == Some(REPORTED[i]))
      && (checked ==> after == Remembered(p, seen, x.nonce, t2))
      && (checked && r.decision == Reject ==>
            exists g: nat :: FirstViolated(cfg, x.currentEdns, cei, g) && r.reason == Some(GATE_ORDER[g]))
  {
    hide Passes, Violated;
    FirstFailureDecides(p, c, k, seen, x, t1, t2);
    VerdictMeaning(cfg, x.currentEdns, cei);
    var (validated, after) := Validation(p, c, k, seen, x, t1, t2);
    var v := GateVerdict(cfg, x.currentEdns, cei);
    if validated.Rejected? {
      var i: nat :| FirstFailure(i, p, c, k, seen, x, t1) && validated.reason == REASONS[i];
      MappingsAgree(i);
    } else if !v.approved {
      var g: nat :| FirstViolated(cfg, x.currentEdns, cei, g) && v.reason == Some(GATE_ORDER[g]);
      MappingsAgree(g);
    }
  }
}
