/** The MAMA safety gates (`mama_gate.py`), the EDNS score (`edns_metrics.py`) and the policy
    vocabulary they share with the decision engine. Scores are real numbers. */
module Policy {
  import opened Common

  datatype RejectionReason =
    | InvalidSignature | ExpiredToken | InvalidAudience | MissingClaim | CrossValidationFailed
    | UntrustedNode | FundingExceeded | SafetyViolation | ValueNegative | SlaPenaltyExceeded
    | ThroughputDeviation | InvalidNonce | InvalidTimestamp | SchemaValidationFailed | ClockSkewExceeded

  // The string value of the enumeration member.
  function Value(r: RejectionReason): string {
    match r
    case InvalidSignature => "invalid_signature"
    case ExpiredToken => "expired_token"
    case InvalidAudience => "invalid_audience"
    case MissingClaim => "missing_claim"
    case CrossValidationFailed => "cross_validation_failed"
    case UntrustedNode => "untrusted_node"
    case FundingExceeded => "funding_threshold_exceeded"
    case SafetyViolation => "safety_gate_triggered"
    case ValueNegative => "negative_value_realization"
    case SlaPenaltyExceeded => "sla_penalty_exposure_exceeded"
    case ThroughputDeviation => "max_throughput_deviation"
    case InvalidNonce => "invalid_nonce"
    case InvalidTimestamp => "invalid_timestamp"
    case SchemaValidationFailed => "schema_validation_failed"
    case ClockSkewExceeded => "clock_skew_exceeded"
  }

  datatype MamaConfig = MamaConfig(
    maxSlaPenalty: real, maxThroughputDeviation: real, minFundingRatio: real, minSafetyScore: real, minValueRealization: real)

  const DEFAULT_CONFIG := MamaConfig(0.15, 0.20, 0.30, 0.85, 0.10)

  datatype CeiMetrics = CeiMetrics(effectiveness: real, demandNotServed: real, throughputImpact: real, slaPenalty: real)

  // The bounds the metrics model enforces on its fields.
  predicate InUnit(x: real) {
    0.0 <= x <= 1.0
  }

  predicate ValidMetrics(cei: CeiMetrics) {
    InUnit(cei.effectiveness) && InUnit(cei.demandNotServed) && InUnit(cei.throughputImpact) && InUnit(cei.slaPenalty)
  }

  datatype GateEvaluation = GateEvaluation(
    gateName: string, passed: bool, reason: Option<RejectionReason>, score: real, threshold: real)

  datatype Verdict = Verdict(approved: bool, reason: Option<RejectionReason>, evaluations: seq<GateEvaluation>)

  function Max(x: real, y: real): real {
    if x >= y then x else y
  }

  function Min(x: real, y: real): real {
    if x <= y then x else y
  }

  function FundingGate(cfg: MamaConfig, cei: CeiMetrics): GateEvaluation {
    var composite := 1.0 - Max(cei.slaPenalty, cei.throughputImpact);
    if !(cei.slaPenalty <= cfg.maxSlaPenalty) then
      GateEvaluation("funding", false, Some(SlaPenaltyExceeded), cei.slaPenalty, cfg.maxSlaPenalty)
    else if !(cei.throughputImpact <= cfg.maxThroughputDeviation) then
      GateEvaluation("funding", false, Some(ThroughputDeviation), cei.throughputImpact, cfg.maxThroughputDeviation)
    else if composite < cfg.minFundingRatio then
      GateEvaluation("funding", false, Some(FundingExceeded), composite, cfg.minFundingRatio)
    else
      GateEvaluation("funding", true, None, composite, cfg.minFundingRatio)
  }

  function SafetyScore(edns: real, cei: CeiMetrics): real {
    0.6 * (1.0 - edns) + 0.4 * cei.effectiveness
  }

  function SafetyGate(cfg: MamaConfig, edns: real, cei: CeiMetrics): GateEvaluation {
    var score := SafetyScore(edns, cei);
    if score < cfg.minSafetyScore then
      GateEvaluation("safety", false, Some(SafetyViolation), score, cfg.minSafetyScore)
    else
      GateEvaluation("safety", true, None, score, cfg.minSafetyScore)
  }

  function ValueGate(cfg: MamaConfig, cei: CeiMetrics): GateEvaluation {
    var score := cei.effectiveness - cei.demandNotServed;
    if score < cfg.minValueRealization then
      GateEvaluation("value_realization", false, Some(ValueNegative), score, cfg.minValueRealization)
    else
      GateEvaluation("value_realization", true, None, score, cfg.minValueRealization)
  }

  // The verdict reached from the gates in order, the first failure deciding.
  function Decide(gates: seq<GateEvaluation>): Verdict {
    if gates == [] then Verdict(true, None, [])
    else if !gates[0].passed then Verdict(false, gates[0].reason, [gates[0]])
    else
      var rest := Decide(gates[1..]);
      rest.(evaluations := [gates[0]] + rest.evaluations)
  }

  function GateVerdict(cfg: MamaConfig, edns: real, cei: CeiMetrics): Verdict {
    Decide([FundingGate(cfg, cei), SafetyGate(cfg, edns, cei), ValueGate(cfg, cei)])
  }

  /** `MAMASafetyGate.evaluate`. */
  method Evaluate(cfg: MamaConfig, edns: real, cei: CeiMetrics) returns (v: Verdict)
    ensures v == GateVerdict(cfg, edns, cei)
  {
    DecideThree(FundingGate(cfg, cei), SafetyGate(cfg, edns, cei), ValueGate(cfg, cei));
    var evaluations: seq<GateEvaluation> := [];

    var funding := FundingGate(cfg, cei);
    evaluations := evaluations + [funding];
    if !funding.passed {
      return Verdict(false, funding.reason, evaluations);
    }

    var safety := SafetyGate(cfg, edns, cei);
    evaluations := evaluations + [safety];
    if !safety.passed {
      return Verdict(false, safety.reason, evaluations);
    }

    var value := ValueGate(cfg, cei);
    evaluations := evaluations + [value];
    if !value.passed {
      return Verdict(false, value.reason, evaluations);
    }

    return Verdict(true, None, evaluations);
  }

  lemma DecideThree(f: GateEvaluation, s: GateEvaluation, v: GateEvaluation)
    ensures Decide([f, s, v]) ==
      if !f.passed then Verdict(false, f.reason, [f])
      else if !s.passed then Verdict(false, s.reason, [f, s])
      else if !v.passed then Verdict(false, v.reason, [f, s, v])
      else Verdict(true, None, [f, s, v])
  {
    var none: seq<GateEvaluation> := [];
    assert [f, s, v][1..] == [s, v] && [s, v][1..] == [v] && [v][1..] == none;
    assert Decide(none) == Verdict(true, None, []);
    assert [v] + none == [v] && [s] + [v] == [s, v] && [f] + [s, v] == [f, s, v] && [f] + [s] == [f, s];
    assert Decide([v]) == if !v.passed then Verdict(false, v.reason, [v]) else Verdict(true, None, [v]);
    assert Decide([s, v]).evaluations == if !s.passed then [s] else [s, v];
  }

  // ----- what approval means

  const GATE_ORDER := [SlaPenaltyExceeded, ThroughputDeviation, FundingExceeded, SafetyViolation, ValueNegative]

  /** The inequality behind each gate rejection. */
  predicate Violated(cfg: MamaConfig, edns: real, cei: CeiMetrics, r: RejectionReason) {
    match r
    case SlaPenaltyExceeded => cei.slaPenalty > cfg.maxSlaPenalty
    case ThroughputDeviation => cei.throughputImpact > cfg.maxThroughputDeviation
    case FundingExceeded =>
      cei.slaPenalty > 1.0 - cfg.minFundingRatio || cei.throughputImpact > 1.0 - cfg.minFundingRatio
    case SafetyViolation => 3.0 * (1.0 - edns) + 2.0 * cei.effectiveness < 5.0 * cfg.minSafetyScore
    case ValueNegative => cei.effectiveness < cei.demandNotServed + cfg.minValueRealization
    case _ => false
  }

  // The `k`-th inequality is violated, and none before it.
  predicate FirstViolated(cfg: MamaConfig, edns: real, cei: CeiMetrics, k: nat) {
    && k < |GATE_ORDER| && Violated(cfg, edns, cei, GATE_ORDER[k])
    && forall j | 0 <= j < k :: !Violated(cfg, edns, cei, GATE_ORDER[j])
  }

  lemma FundingViolations(cfg: MamaConfig, edns: real, cei: CeiMetrics)
    ensures var f := FundingGate(cfg, cei);
      && (f.passed <==> forall j | 0 <= j < 3 :: !Violated(cfg, edns, cei, GATE_ORDER[j]))
      && (!f.passed ==> exists k: nat :: k < 3 && FirstViolated(cfg, edns, cei, k) && f.reason == Some(GATE_ORDER[k]))
  {
    assert GATE_ORDER[0] == SlaPenaltyExceeded && GATE_ORDER[1] == ThroughputDeviation && GATE_ORDER[2] == FundingExceeded;
    if Violated(cfg, edns, cei, GATE_ORDER[0]) {
      assert FirstViolated(cfg, edns, cei, 0);
    } else if Violated(cfg, edns, cei, GATE_ORDER[1]) {
      assert FirstViolated(cfg, edns, cei, 1);
    } else if Violated(cfg, edns, cei, GATE_ORDER[2]) {
      assert FirstViolated(cfg, edns, cei, 2);
    }
  }

  lemma OtherViolations(cfg: MamaConfig, edns: real, cei: CeiMetrics)
    ensures SafetyGate(cfg, edns, cei).passed <==> !Violated(cfg, edns, cei, GATE_ORDER[3])
    ensures !SafetyGate(cfg, edns, cei).passed ==> SafetyGate(cfg, edns, cei).reason == Some(GATE_ORDER[3])
    ensures ValueGate(cfg, cei).passed <==> !Violated(cfg, edns, cei, GATE_ORDER[4])
    ensures !ValueGate(cfg, cei).passed ==> ValueGate(cfg, cei).reason == Some(GATE_ORDER[4])
  {
    assert GATE_ORDER[3] == SafetyViolation && GATE_ORDER[4] == ValueNegative;
  }

  /** Approval is the conjunction of five inequalities, and a rejection names the first one
      violated in gate order. */
  lemma VerdictMeaning(cfg: MamaConfig, edns: real, cei: CeiMetrics)
    ensures var v := GateVerdict(cfg, edns, cei);
      && (v.approved <==> forall r | r in GATE_ORDER :: !Violated(cfg, edns, cei, r))
      && (v.approved ==> v.reason == None && |v.evaluations| == 3)
      && (!v.approved ==> exists k: nat :: FirstViolated(cfg, edns, cei, k) && v.reason == Some(GATE_ORDER[k]))
      && v.evaluations != []
      && (forall i | 0 <= i < |v.evaluations| :: v.evaluations[i].passed <==> (v.approved || i < |v.evaluations| - 1))
  {
    hide Violated, FundingGate, SafetyGate, ValueGate;
    FundingViolations(cfg, edns, cei);
    OtherViolations(cfg, edns, cei);
    var f, s, v := FundingGate(cfg, cei), SafetyGate(cfg, edns, cei), ValueGate(cfg, cei);
    DecideThree(f, s, v);
    assert |GATE_ORDER| == 5;
    if f.passed && !s.passed {
      assert FirstViolated(cfg, edns, cei, 3);
    } else if f.passed && !v.passed {
      assert FirstViolated(cfg, edns, cei, 4);
    }
    assert forall r | r in GATE_ORDER :: exists j :: 0 <= j < 5 && GATE_ORDER[j] == r;
  }

  // Evaluation `e` of the gate `name` compared `score` with `threshold`.
  predicate Reports(e: GateEvaluation, name: string, score: real, threshold: real) {
    e.gateName == name && e.score == score && e.threshold == threshold
  }

  /** The evaluations listed, in order, with the two numbers that each gate compared: the funding
      gate reports the larger of the two exposures against the ratio unless a limit was exceeded. */
  lemma EvaluationsReport(cfg: MamaConfig, edns: real, cei: CeiMetrics)
    ensures var v := GateVerdict(cfg, edns, cei); var es := v.evaluations;
      && (if v.reason == Some(SlaPenaltyExceeded) then
            |es| == 1 && Reports(es[0], "funding", cei.slaPenalty, cfg.maxSlaPenalty)
          else if v.reason == Some(ThroughputDeviation) then
            |es| == 1 && Reports(es[0], "funding", cei.throughputImpact, cfg.maxThroughputDeviation)
          else
            && es != [] && es[0].gateName == "funding" && es[0].threshold == cfg.minFundingRatio
            && es[0].score <= 1.0 - cei.slaPenalty && es[0].score <= 1.0 - cei.throughputImpact
            && (es[0].score == 1.0 - cei.slaPenalty || es[0].score == 1.0 - cei.throughputImpact))
      && (|es| > 1 ==> Reports(es[1], "safety", (3.0 * (1.0 - edns) + 2.0 * cei.effectiveness) / 5.0, cfg.minSafetyScore))
      && (|es| > 2 ==>
            Reports(es[2], "value_realization", cei.effectiveness - cei.demandNotServed, cfg.minValueRealization))
      && |es| <= 3 && forall i | 0 <= i < |es| :: es[i].reason == if es[i].passed then None else v.reason
  {
    DecideThree(FundingGate(cfg, cei), SafetyGate(cfg, edns, cei), ValueGate(cfg, cei));
  }

  // `cei2` and `edns2` are at least as good, and `cfg2` at least as lenient.
  predicate NoWorse(cfg: MamaConfig, edns: real, cei: CeiMetrics, cfg2: MamaConfig, edns2: real, cei2: CeiMetrics) {
    && edns2 <= edns && cei2.effectiveness >= cei.effectiveness && cei2.demandNotServed <= cei.demandNotServed
    && cei2.throughputImpact <= cei.throughputImpact && cei2.slaPenalty <= cei.slaPenalty
    && cfg2.maxSlaPenalty >= cfg.maxSlaPenalty && cfg2.maxThroughputDeviation >= cfg.maxThroughputDeviation
    && cfg2.minFundingRatio <= cfg.minFundingRatio && cfg2.minSafetyScore <= cfg.minSafetyScore
    && cfg2.minValueRealization <= cfg.minValueRealization
  }

  /** Improving any metric or loosening any threshold never turns an approval into a rejection. */
  lemma ApprovalIsMonotone(cfg: MamaConfig, edns: real, cei: CeiMetrics, cfg2: MamaConfig, edns2: real, cei2: CeiMetrics)
    requires NoWorse(cfg, edns, cei, cfg2, edns2, cei2) && GateVerdict(cfg, edns, cei).approved
    ensures GateVerdict(cfg2, edns2, cei2).approved
  {
    VerdictMeaning(cfg, edns, cei);
    VerdictMeaning(cfg2, edns2, cei2);
    forall r | r in GATE_ORDER ensures !Violated(cfg2, edns2, cei2, r) {
      assert !Violated(cfg, edns, cei, r);
    }
  }

  /** The funding-ratio check can reject some metrics exactly when the ratio asked for is more
      than the two limits already leave; with the defaults it never does. */
  lemma FundingRatioReachableExactly(cfg: MamaConfig, edns: real)
    requires InUnit(cfg.maxSlaPenalty) && InUnit(cfg.maxThroughputDeviation)
    ensures cfg.minFundingRatio > 1.0 - Max(cfg.maxSlaPenalty, cfg.maxThroughputDeviation) <==>
      exists cei :: ValidMetrics(cei) && GateVerdict(cfg, edns, cei).reason == Some(FundingExceeded)
  {
    var worst := CeiMetrics(1.0, 0.0, cfg.maxThroughputDeviation, cfg.maxSlaPenalty);
    forall cei ensures GateVerdict(cfg, edns, cei).reason == Some(FundingExceeded) <==>
      FundingGate(cfg, cei).reason == Some(FundingExceeded)
    {
      DecideThree(FundingGate(cfg, cei), SafetyGate(cfg, edns, cei), ValueGate(cfg, cei));
    }
    assert ValidMetrics(worst);
  }

  /** With the default thresholds an approved request has EDNS at most 0.25 and effectiveness
      at least 0.625. */
  lemma DefaultApprovalBounds(edns: real, cei: CeiMetrics)
    requires InUnit(edns) && ValidMetrics(cei) && GateVerdict(DEFAULT_CONFIG, edns, cei).approved
    ensures edns <= 0.25 && cei.effectiveness >= 0.625
  {
    VerdictMeaning(DEFAULT_CONFIG, edns, cei);
    assert SafetyViolation in GATE_ORDER by { assert GATE_ORDER[3] == SafetyViolation; }
  }

  /** The default thresholds in full: approval is four inequalities, the funding ratio adding none. */
  lemma DefaultApprovalExactly(edns: real, cei: CeiMetrics)
    ensures GateVerdict(DEFAULT_CONFIG, edns, cei).approved <==>
      && cei.slaPenalty <= 0.15 && cei.throughputImpact <= 0.20
      && 0.6 * edns <= 0.4 * cei.effectiveness - 0.25 && cei.demandNotServed <= cei.effectiveness - 0.10
  {
    hide GateVerdict;
    VerdictMeaning(DEFAULT_CONFIG, edns, cei);
    assert GATE_ORDER[0] == SlaPenaltyExceeded && GATE_ORDER[1] == ThroughputDeviation && GATE_ORDER[2] == FundingExceeded;
    assert GATE_ORDER[3] == SafetyViolation && GATE_ORDER[4] == ValueNegative && |GATE_ORDER| == 5;
    if GateVerdict(DEFAULT_CONFIG, edns, cei).approved {
      assert forall k | 0 <= k < 5 :: !Violated(DEFAULT_CONFIG, edns, cei, GATE_ORDER[k]);
      assert !Violated(DEFAULT_CONFIG, edns, cei, SlaPenaltyExceeded);
      assert !Violated(DEFAULT_CONFIG, edns, cei, ThroughputDeviation);
      assert !Violated(DEFAULT_CONFIG, edns, cei, SafetyViolation) && !Violated(DEFAULT_CONFIG, edns, cei, ValueNegative);
    } else {
      var k: nat :| FirstViolated(DEFAULT_CONFIG, edns, cei, k);
      assert Violated(DEFAULT_CONFIG, edns, cei, GATE_ORDER[k]);
    }
  }

  // ----- the EDNS score

  datatype EdnsInput = EdnsInput(utilization: real, demandIncrease: real, breachRisk: real, compliance: real, congestion: real)

  function WeightedSum(x: EdnsInput): real {
    0.35 * Min(1.0, x.utilization + x.demandIncrease) + 0.25 * Min(1.0, x.demandIncrease)
    + 0.20 * Min(1.0, x.breachRisk) + 0.10 * Min(1.0, 1.0 - x.compliance) + 0.10 * Min(1.0, x.congestion)
  }

  /** `EDNSCalculator.compute`. */
  function Compute(x: EdnsInput): real {
    Max(0.0, Min(1.0, WeightedSum(x)))
  }

  function ClassifyRisk(edns: real): string {
    if edns < 0.25 then "low" else if edns < 0.50 then "medium" else if edns < 0.75 then "high" else "critical"
  }

  predicate NoMorePressure(x: EdnsInput, y: EdnsInput) {
    && x.utilization <= y.utilization && x.demandIncrease <= y.demandIncrease && x.breachRisk <= y.breachRisk
    && x.compliance >= y.compliance && x.congestion <= y.congestion
  }

  /** For any inputs the weighted sum is at most 1, so the outer clamp only ever acts at 0, and
      the score is monotone in every indicator and stays in 0..1. */
  lemma EdnsBoundedAndMonotone(x: EdnsInput, y: EdnsInput)
    requires NoMorePressure(x, y)
    ensures WeightedSum(x) <= WeightedSum(y) <= 1.0
    ensures Compute(x) <= Compute(y) && InUnit(Compute(y)) && Compute(y) == Max(0.0, WeightedSum(y))
  {
  }

  /** While no indicator is beyond 1 the score is linear: demand growth, which counts twice, weighs
      most, and a perfect compliance record takes off its whole share. */
  lemma EdnsLinear(x: EdnsInput)
    requires x.utilization + x.demandIncrease <= 1.0 && x.demandIncrease <= 1.0 && x.breachRisk <= 1.0
    requires x.compliance >= 0.0 && x.congestion <= 1.0
    ensures var score := 0.1 + 0.35 * x.utilization + 0.6 * x.demandIncrease + 0.2 * x.breachRisk
        - 0.1 * x.compliance + 0.1 * x.congestion;
      Compute(x) == if score < 0.0 then 0.0 else score
  {
    EdnsBoundedAndMonotone(x, x);
  }

  /** Beyond 1 an indicator adds nothing more. */
  lemma EdnsSaturates(x: EdnsInput)
    ensures x.utilization + x.demandIncrease >= 1.0 ==> Compute(x) == Compute(x.(utilization := 1.0 - x.demandIncrease))
    ensures x.demandIncrease >= 1.0 ==>
      Compute(x) == Compute(x.(demandIncrease := 1.0, utilization := x.utilization + x.demandIncrease - 1.0))
    ensures x.breachRisk >= 1.0 ==> Compute(x) == Compute(x.(breachRisk := 1.0))
    ensures x.compliance <= 0.0 ==> Compute(x) == Compute(x.(compliance := 0.0))
    ensures x.congestion >= 1.0 ==> Compute(x) == Compute(x.(congestion := 1.0))
  {
    hide Max;
  }

  /** The four risk classes are the quarters of the score, each without its upper end. */
  lemma RiskByQuarter(edns: real)
    ensures var quarter := (4.0 * edns).Floor;
      ClassifyRisk(edns) ==
        if quarter <= 0 then "low" else if quarter == 1 then "medium" else if quarter == 2 then "high" else "critical"
  {
  }

  /** A score approved under the default thresholds, whoever computed it, is classed low, or
      medium exactly at 0.25; never high or critical. */
  lemma ApprovedScoreIsNotHigh(edns: real, cei: CeiMetrics)
    requires InUnit(edns) && ValidMetrics(cei) && GateVerdict(DEFAULT_CONFIG, edns, cei).approved
    ensures ClassifyRisk(edns) == if edns == 0.25 then "medium" else "low"
  {
    DefaultApprovalBounds(edns, cei);
  }
}
