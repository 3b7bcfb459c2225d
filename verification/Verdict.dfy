/**
 The verdict engine: criteria A1 to A7 over one run's evidence, the failure class, the ledger status
 and the max-context entry.  Messages are left out; a detail is kept only where later code reads it.
 */
module Verdict {
  import opened Wrappers
  import opened Calibration

  // ----- evidence

  /** One value of a loss or gradient series: a float, or the marker for "no reading". */
  datatype Reading = Finite(value: real) | NaN | PosInf | NegInf | Missing

  predicate NonFinite(r: Reading) {
    r.NaN? || r.PosInf? || r.NegInf?
  }

  /** An optional integer as it arrives from the manifest, before any type check. */
  datatype Manifest = Absent | Flag(flag: bool) | Integer(n: int) | NotANumber

  datatype FailureClass =
    | RealOom
    | FrameworkUnimplemented
    | ConfigInvalid
    | DataProblem
    | CommHardware
    | NumericAnomaly
    | Timeout
    | EvidenceGap
    | GateNotApplicable
    | NcclCollectiveTimeout
    | PipelineP2PTimeout
    | PPRolloutWallClockCap
    | Unclassified

  datatype Evidence = Evidence(
    exitCode: Option<int>,
    timedOut: bool,
    logMatches: set<FailureClass>,           // classes with a pattern that occurs in the log
    optimizerSteps: Option<int>,
    stepsPerStep: Option<seq<int>>,
    stepsDeclaredTotal: Option<int>,
    minOptimizerSteps: Manifest,
    stepsPerEpoch: Manifest,
    stepsReachable: Manifest,
    weightChanged: Option<bool>,
    checkpointReloadable: Option<bool>,
    a3Source: string,
    artifacts: set<string>,
    outputLocated: bool,
    losses: seq<Reading>,
    gradNorms: seq<Reading>,
    lossesNonfinite: bool,
    lossesUnavailable: bool,
    firstLoggedStep: Option<int>,
    nonfiniteSkips: Option<int>,
    failClosedGuarantee: string,
    tier: Coordinates,
    ckptSha256: Option<string>,
    runRoot: Option<string>,
    outputIdentity: Option<string>,
    firstTimestamp: Option<string>)

  datatype Detail = Plain | NanInf | NumericIndeterminate

  datatype Criterion = Criterion(passed: bool, evidenceMissing: bool, detail: Detail)

  const PASS := Criterion(true, false, Plain)
  const FAIL := Criterion(false, false, Plain)
  const GAP := Criterion(false, true, Plain)

  const MIN_OPTIMIZER_STEPS := 5
  const REQUIRED_ARTIFACTS := ["config_backup", "training_log", "checkpoint", "metrics"]
  const WEAK_A3_SOURCES := ["safetensors_header", "skipped", "missing"]

  // ----- A1, A3, A5, A6, A7

  function JudgeA1(e: Evidence): Criterion {
    if e.timedOut then FAIL
    else if e.exitCode.None? then GAP
    else if e.exitCode.value != 0 then FAIL
    else PASS
  }

  function JudgeA3(e: Evidence): Criterion {
    if e.checkpointReloadable.None? then GAP
    else if e.checkpointReloadable.value && e.a3Source in WEAK_A3_SOURCES then GAP
    else if !e.checkpointReloadable.value then FAIL
    else PASS
  }

  function JudgeA5(e: Evidence): Criterion {
    if forall k | 0 <= k < |REQUIRED_ARTIFACTS| :: REQUIRED_ARTIFACTS[k] in e.artifacts then PASS
    else if !e.outputLocated then GAP
    else FAIL
  }

  predicate AnyNonFinite(series: seq<Reading>) {
    exists k | 0 <= k < |series| :: NonFinite(series[k])
  }

  function JudgeA6(e: Evidence): Criterion {
    if e.losses == [] || e.gradNorms == [] then GAP
    else if e.lossesNonfinite || AnyNonFinite(e.losses) || AnyNonFinite(e.gradNorms) then
      Criterion(false, false, NanInf)
    else if e.lossesUnavailable || Missing in e.losses then Criterion(false, true, NumericIndeterminate)
    else PASS
  }

  function JudgeA7(e: Evidence): Criterion {
    if e.failClosedGuarantee != "" then PASS
    else match e.nonfiniteSkips
      case None => GAP
      case Some(skips) => if skips != 0 then FAIL else PASS
  }

  // ----- A2 and the step criterion

  function ResolveMinOptimizerSteps(raw: Manifest): Option<int> {
    match raw
    case Absent => Some(MIN_OPTIMIZER_STEPS)
    case Integer(n) => if n <= 0 then None else Some(n)
    case _ => None
  }

  /** The step gate does not apply: the manifest proves the threshold out of reach. */
  predicate StepGateNotApplicable(e: Evidence, threshold: int) {
    e.stepsReachable.Integer? && 1 <= e.stepsReachable.n < threshold
  }

  /** `isinstance(x, int)`: Python counts booleans as integers. */
  function AsInt(raw: Manifest): Option<int> {
    match raw
    case Integer(n) => Some(n)
    case Flag(b) => Some(if b then 1 else 0)
    case _ => None
  }

  function PlannedSteps(e: Evidence): Manifest {
    if e.stepsPerEpoch.Absent? then e.stepsReachable else e.stepsPerEpoch
  }

  predicate RanThePlan(e: Evidence, steps: int) {
    var planned := AsInt(PlannedSteps(e));
    planned.Some? && planned.value > 0 && steps >= planned.value
  }

  function JudgeA2(e: Evidence): Criterion {
    if e.stepsPerStep.Some? && exists k | 0 <= k < |e.stepsPerStep.value| :: e.stepsPerStep.value[k] <= 0 then FAIL
    else if e.optimizerSteps.None? then GAP
    else
      var steps := e.optimizerSteps.value;
      if e.stepsDeclaredTotal.Some? && steps < e.stepsDeclaredTotal.value then FAIL
      else
        var threshold := ResolveMinOptimizerSteps(e.minOptimizerSteps);
        if threshold.None? then FAIL
        else if steps == 0 then FAIL
        else if StepGateNotApplicable(e, threshold.value) then
          if RanThePlan(e, steps) then PASS else FAIL
        else if steps < threshold.value then FAIL
        else if e.weightChanged.None? then GAP
        else if !e.weightChanged.value then FAIL
        else PASS
  }

  datatype StepVerdict = StepVerdict(ran: bool, notApplicable: bool)

  function UsabilityStepCriterion(e: Evidence): StepVerdict {
    var threshold := ResolveMinOptimizerSteps(e.minOptimizerSteps);
    if threshold.None? then StepVerdict(false, false)
    else if e.optimizerSteps.None? then StepVerdict(false, false)
    else
      var steps := e.optimizerSteps.value;
      if StepGateNotApplicable(e, threshold.value) then
        if RanThePlan(e, steps) then StepVerdict(true, false) else StepVerdict(false, true)
      else if steps >= threshold.value then StepVerdict(true, false)
      else StepVerdict(false, false)
  }

  // ----- A4

  /** `abs(a - b)` of two floats. */
  datatype Gap = Exactly(size: real) | Infinite | Undefined

  function FinalGap(a: Reading, b: Reading): Gap
    requires !a.Missing? && !b.Missing?
  {
    if a.NaN? || b.NaN? then Undefined
    else if a.Finite? && b.Finite? then Exactly(Abs(a.value - b.value))
    else if a == b then Undefined
    else Infinite
  }

  /** `gap > tolerance`; every comparison with NaN is false. */
  predicate Exceeds(gap: Gap, tolerance: real) {
    gap.Infinite? || (gap.Exactly? && gap.size > tolerance)
  }

  /** `a == b` on floats. */
  predicate SameFloat(a: Reading, b: Reading) {
    a == b && !a.NaN?
  }

  /** The sign-flip test on floats whose gap is not infinite; with NaN or equal infinities none of its tests fires. */
  predicate FlipsSign(a: Reading, b: Reading, tolerance: real) {
    a.Finite? && b.Finite? && IsSignFlip(a.value, b.value, tolerance)
  }

  predicate BothFirstSteps(a: Evidence, b: Evidence) {
    a.firstLoggedStep == Some(1) && b.firstLoggedStep == Some(1)
  }

  predicate KnownToDiffer(a: Option<string>, b: Option<string>) {
    Known(a) && Known(b) && a != b
  }

  function IndependenceSignals(a: Evidence, b: Evidence): nat {
    if Known(a.firstTimestamp) && Known(b.firstTimestamp) && a.firstTimestamp == b.firstTimestamp then 0
    else
      (if KnownToDiffer(a.runRoot, b.runRoot) then 1 else 0)
      + (if KnownToDiffer(a.outputIdentity, b.outputIdentity) then 1 else 0)
      + (if Known(a.firstTimestamp) && Known(b.firstTimestamp) then 1 else 0)
  }

  const MIN_INDEPENDENCE_SIGNALS := 2

  function JudgeA4(table: seq<Row>, first: Evidence, other: Option<Evidence>, requireDualChannel: bool): Criterion {
    if other.None? then GAP
    else
      var second := other.value;
      if first.exitCode != Some(0) || second.exitCode != Some(0) then FAIL
      else if first.optimizerSteps != second.optimizerSteps then FAIL
      else if first.weightChanged != second.weightChanged then FAIL
      else if first.losses == [] || second.losses == [] then GAP
      else if BothFirstSteps(first, second) && (first.losses[0].Missing? || second.losses[0].Missing?) then FAIL
      else if BothFirstSteps(first, second) && !SameFloat(first.losses[0], second.losses[0]) then FAIL
      else
        var calibration := ResolveTierCalibration(table, first.tier);
        if calibration.None? then GAP
        else
          var tolerance := calibration.value.tol;
          var a, b := first.losses[|first.losses| - 1], second.losses[|second.losses| - 1];
          if a.Missing? || b.Missing? then FAIL
          else
            var gap := FinalGap(a, b);
            if Exceeds(gap, tolerance) then FAIL
            else if FlipsSign(a, b, tolerance) then FAIL
            else
              var present := first.ckptSha256.Some? && second.ckptSha256.Some?;
              if present && first.ckptSha256 == second.ckptSha256 && gap == Exactly(0.0) then
                if IndependenceSignals(first, second) >= MIN_INDEPENDENCE_SIGNALS then PASS else GAP
              else if requireDualChannel && gap == Exactly(0.0) && !present then GAP
              else PASS
  }

  // ----- failure class

  /** The log table, in its order of precedence. */
  const LOG_ORDER: seq<FailureClass> := [
    NumericAnomaly, FrameworkUnimplemented, ConfigInvalid, DataProblem, PipelineP2PTimeout,
    PPRolloutWallClockCap, NcclCollectiveTimeout, CommHardware, RealOom
  ]

  function FirstLogMatch(order: seq<FailureClass>, matches: set<FailureClass>): Option<FailureClass> {
    if order == [] then None
    else if order[0] in matches then Some(order[0])
    else FirstLogMatch(order[1..], matches)
  }

  function ClassifyFailure(e: Evidence, a6: Criterion): Option<FailureClass> {
    if e.timedOut || e.exitCode == Some(124) then Some(Timeout)
    else if e.exitCode == Some(86) then Some(PipelineP2PTimeout)
    else if e.exitCode == Some(21) then Some(PPRolloutWallClockCap)
    else if !a6.passed && a6.detail.NanInf? then Some(NumericAnomaly)
    else if !a6.passed && a6.detail.NumericIndeterminate? then Some(Unclassified)
    else
      var logged := FirstLogMatch(LOG_ORDER, e.logMatches);
      if logged.Some? then logged
      else if e.exitCode.Some? && e.exitCode.value != 0 then Some(Unclassified)
      else None
  }

  predicate CountsTowardMaxContext(failure: Option<FailureClass>) {
    failure == Some(RealOom)
  }

  // ----- the tier

  datatype Judgement = Judgement(
    passed: bool,
    failureClass: Option<FailureClass>,
    countsTowardMaxContext: bool,
    stepGateNotApplicable: bool,
    primaryEvidenceGap: bool,
    primaryOthersOk: bool,
    a4: Criterion)

  /** The primary criteria, A2 second. */
  function Primary(e: Evidence): seq<Criterion> {
    [JudgeA1(e), JudgeA2(e), JudgeA3(e), JudgeA5(e), JudgeA6(e), JudgeA7(e)]
  }

  predicate AllPass(criteria: seq<Criterion>) {
    forall k | 0 <= k < |criteria| :: criteria[k].passed
  }

  predicate OthersPass(e: Evidence) {
    JudgeA1(e).passed && JudgeA3(e).passed && JudgeA5(e).passed && JudgeA6(e).passed && JudgeA7(e).passed
  }

  function JudgeTier(table: seq<Row>, first: Evidence, second: Option<Evidence>, requireDualChannel: bool): Judgement {
    var a4 := JudgeA4(table, first, second, requireDualChannel);
    var flag := UsabilityStepCriterion(first).notApplicable;
    var primary := Primary(first);
    if AllPass(primary) then Judgement(true, None, false, flag, false, true, a4)
    else
      var othersOk := OthersPass(first);
      var onlyGaps := forall k | 0 <= k < |primary| && !primary[k].passed :: primary[k].evidenceMissing;
      var classified := ClassifyFailure(first, JudgeA6(first));
      var substantive := if classified == Some(CommHardware) && JudgeA1(first).passed then None else classified;
      var gap := onlyGaps && substantive.None?;
      var failure :=
        if flag && othersOk then GateNotApplicable
        else if gap then EvidenceGap
        else if substantive.Some? then substantive.value
        else Unclassified;
      Judgement(false, Some(failure), CountsTowardMaxContext(Some(failure)), flag, gap, othersOk, a4)
  }

  datatype Status = Usable | Unusable | NotMeasurable

  function LedgerStatus(j: Judgement): Status {
    if j.passed then Usable
    else if j.primaryEvidenceGap then NotMeasurable
    else if j.stepGateNotApplicable && j.primaryOthersOk then NotMeasurable
    else Unusable
  }

  datatype ContextKind = Feasible | OomBoundary

  /** The max-context cell of the ledger row with its kind label. */
  function MaxContext(j: Judgement, length: Option<int>): Option<(int, ContextKind)> {
    if length.Some? && (j.passed || j.countsTowardMaxContext)
    then Some((length.value, if j.passed then Feasible else OomBoundary))
    else None
  }

  // ----- A2 and the step criterion agree

  /** A2 passing means the step criterion holds; the third-state flag means A2 fails; they are never both set. */
  lemma {:induction false} StepRulesAgree(e: Evidence)
    ensures JudgeA2(e).passed ==> UsabilityStepCriterion(e).ran
    ensures UsabilityStepCriterion(e).notApplicable ==> !JudgeA2(e).passed && !JudgeA2(e).evidenceMissing
    ensures JudgeA2(e).passed ==> e.optimizerSteps.Some? && e.optimizerSteps.value != 0
  {
  }

  /** A2 looks at the weights exactly when the step gate applies. */
  lemma {:induction false} A2AndWeights(e: Evidence)
    requires JudgeA2(e).passed
    ensures e.weightChanged == Some(true)
            || StepGateNotApplicable(e, ResolveMinOptimizerSteps(e.minOptimizerSteps).value)
  {
  }

  /** The exception is real: with an unreachable threshold, frozen weights still pass A2. */
  lemma {:induction false} UnreachableGateIgnoresWeights(e: Evidence, weights: Option<bool>)
    requires JudgeA2(e).passed && StepGateNotApplicable(e, ResolveMinOptimizerSteps(e.minOptimizerSteps).value)
    ensures JudgeA2(e.(weightChanged := weights)).passed
  {
  }

  /** One more optimizer step never undoes a pass of A2. */
  lemma {:induction false} MoreStepsKeepA2(e: Evidence, steps: int)
    requires JudgeA2(e).passed && steps >= e.optimizerSteps.value
    ensures JudgeA2(e.(optimizerSteps := Some(steps))).passed
  {
    var more := e.(optimizerSteps := Some(steps));
    assert PlannedSteps(more) == PlannedSteps(e);
  }

  // ----- what a usable tier rests on

  /** The steps reach the threshold or, where the manifest puts that out of reach, the planned total. */
  predicate GateReached(e: Evidence, steps: int, threshold: int) {
    if e.stepsReachable.Integer? && 1 <= e.stepsReachable.n < threshold then
      match e.stepsPerEpoch
      case Absent => steps >= e.stepsReachable.n
      case Integer(planned) => 0 < planned <= steps
      case Flag(b) => b && steps >= 1
      case NotANumber => false
    else steps >= threshold
  }

  /** Where the threshold is in reach the weights must have moved. */
  predicate WeightsSettled(e: Evidence, threshold: int) {
    e.weightChanged == Some(true) || (e.stepsReachable.Integer? && 1 <= e.stepsReachable.n < threshold)
  }

  /** The threshold is 5 unless the manifest names a positive one; nothing meets one that is no positive integer. */
  predicate EnoughSteps(e: Evidence, steps: int) {
    match e.minOptimizerSteps
    case Absent => GateReached(e, steps, 5) && WeightsSettled(e, 5)
    case Integer(n) => n > 0 && GateReached(e, steps, n) && WeightsSettled(e, n)
    case _ => false
  }

  predicate TotalsHold(e: Evidence) {
    && (e.stepsPerStep.Some? ==> forall k | 0 <= k < |e.stepsPerStep.value| :: e.stepsPerStep.value[k] > 0)
    && (e.stepsDeclaredTotal.Some? && e.optimizerSteps.Some? ==> e.stepsDeclaredTotal.value <= e.optimizerSteps.value)
  }

  /** Steps were taken, as many as planned or demanded, and where they were demanded the weights moved. */
  predicate StepsEvidence(e: Evidence) {
    TotalsHold(e) && e.optimizerSteps.Some? && e.optimizerSteps.value > 0 && EnoughSteps(e, e.optimizerSteps.value)
  }

  /**
   What a usable tier rests on besides its steps.  Beyond what an unreachable gate or a guarantee excuses, four readings
   may be absent: any gradient norm, the source of the reload evidence, the per-step totals and the declared total.
   */
  predicate OtherEvidence(e: Evidence) {
    && !e.timedOut && e.exitCode == Some(0)
    && e.checkpointReloadable == Some(true)
    && e.a3Source != "safetensors_header" && e.a3Source != "skipped" && e.a3Source != "missing"
    && {"config_backup", "training_log", "checkpoint", "metrics"} <= e.artifacts
    && e.losses != [] && (forall r | r in e.losses :: r.Finite?) && !e.lossesNonfinite && !e.lossesUnavailable
    && e.gradNorms != [] && (forall r | r in e.gradNorms :: r.Finite? || r.Missing?)
    && (e.nonfiniteSkips == Some(0) || e.failClosedGuarantee != "")
  }

  predicate UsableEvidence(e: Evidence) {
    StepsEvidence(e) && OtherEvidence(e)
  }

  lemma {:induction false} A2Exactly(e: Evidence)
    ensures JudgeA2(e).passed <==> StepsEvidence(e)
  {
  }

  lemma {:induction false} A6Means(e: Evidence)
    ensures JudgeA6(e).passed <==>
              && e.losses != [] && (forall r | r in e.losses :: r.Finite?) && !e.lossesNonfinite && !e.lossesUnavailable
              && e.gradNorms != [] && (forall r | r in e.gradNorms :: r.Finite? || r.Missing?)
  {
    NonFiniteOccurs(e.losses);
    NonFiniteOccurs(e.gradNorms);
  }

  lemma {:induction false} NonFiniteOccurs(series: seq<Reading>)
    ensures AnyNonFinite(series) <==> exists r :: r in series && NonFinite(r)
  {
    if AnyNonFinite(series) {
      var k :| 0 <= k < |series| && NonFinite(series[k]);
      assert series[k] in series;
    }
  }

  lemma {:induction false} A3Exactly(e: Evidence)
    ensures JudgeA3(e).passed <==>
              && e.checkpointReloadable == Some(true)
              && e.a3Source != "safetensors_header" && e.a3Source != "skipped" && e.a3Source != "missing"
  {
    assert WEAK_A3_SOURCES == ["safetensors_header"] + ["skipped"] + ["missing"];
  }

  lemma {:induction false} A5Exactly(e: Evidence)
    ensures JudgeA5(e).passed <==> {"config_backup", "training_log", "checkpoint", "metrics"} <= e.artifacts
  {
    var names := REQUIRED_ARTIFACTS;
    assert names[0] == "config_backup" && names[1] == "training_log" && names[2] == "checkpoint" && names[3] == "metrics";
  }

  lemma {:induction false} OthersExactly(e: Evidence)
    ensures OthersPass(e) <==> OtherEvidence(e)
  {
    A3Exactly(e);
    A5Exactly(e);
    A6Means(e);
  }

  /** A tier is usable exactly on full positive evidence, whatever the second run and the calibration say. */
  lemma {:induction false} UsableExactly(table: seq<Row>, e: Evidence, second: Option<Evidence>, dual: bool)
    ensures JudgeTier(table, e, second, dual).passed <==> UsableEvidence(e)
  {
    PrimaryIsA2AndOthers(e);
    A2Exactly(e);
    OthersExactly(e);
  }

  /** The gate in numbers: without a word from the manifest five steps are demanded, and five with moved weights suffice. */
  lemma {:induction false} DefaultGate(table: seq<Row>, e: Evidence, second: Option<Evidence>, dual: bool)
    requires e.minOptimizerSteps.Absent? && e.stepsReachable.Absent? && OtherEvidence(e) && TotalsHold(e)
    ensures JudgeTier(table, e, second, dual).passed
            <==> e.optimizerSteps.Some? && e.optimizerSteps.value >= 5 && e.weightChanged == Some(true)
  {
    UsableExactly(table, e, second, dual);
  }

  /** What the step criterion says, without a look at the weights. */
  lemma {:induction false} StepCriterionExactly(e: Evidence)
    ensures UsabilityStepCriterion(e).ran
            <==> e.optimizerSteps.Some? && match e.minOptimizerSteps
                                           case Absent => GateReached(e, e.optimizerSteps.value, 5)
                                           case Integer(n) => n > 0 && GateReached(e, e.optimizerSteps.value, n)
                                           case _ => false
    ensures UsabilityStepCriterion(e).notApplicable
            <==> e.optimizerSteps.Some? && e.stepsReachable.Integer? && 1 <= e.stepsReachable.n
                 && match e.minOptimizerSteps
                    case Absent => e.stepsReachable.n < 5 && !GateReached(e, e.optimizerSteps.value, 5)
                    case Integer(n) => e.stepsReachable.n < n && !GateReached(e, e.optimizerSteps.value, n)
                    case _ => false
  {
  }

  // ----- what counts as missing evidence

  predicate LacksA2(e: Evidence) {
    && TotalsHold(e)
    && (e.optimizerSteps.Some? ==>
          && e.weightChanged.None? && e.optimizerSteps.value > 0
          && match e.minOptimizerSteps
             case Absent => GateReached(e, e.optimizerSteps.value, 5) && !WeightsSettled(e, 5)
             case Integer(n) => n > 0 && GateReached(e, e.optimizerSteps.value, n) && !WeightsSettled(e, n)
             case _ => false)
  }

  predicate LacksA3(e: Evidence) {
    e.checkpointReloadable.None?
    || (e.checkpointReloadable == Some(true)
        && (e.a3Source == "safetensors_header" || e.a3Source == "skipped" || e.a3Source == "missing"))
  }

  predicate LacksA5(e: Evidence) {
    !e.outputLocated && !({"config_backup", "training_log", "checkpoint", "metrics"} <= e.artifacts)
  }

  /** No NaN and no infinity was read. */
  predicate NothingNonFinite(e: Evidence) {
    && !e.lossesNonfinite
    && (forall r | r in e.losses :: r.Finite? || r.Missing?)
    && (forall r | r in e.gradNorms :: r.Finite? || r.Missing?)
  }

  /** No series, or a loss that was not read and nothing non-finite that was. */
  predicate LacksA6(e: Evidence) {
    e.losses == [] || e.gradNorms == [] || ((e.lossesUnavailable || Missing in e.losses) && NothingNonFinite(e))
  }

  lemma {:induction false} AnomalyExactly(e: Evidence)
    ensures JudgeA6(e).detail.NanInf? <==> e.losses != [] && e.gradNorms != [] && !NothingNonFinite(e)
    ensures JudgeA6(e).detail.NumericIndeterminate? <==> LossUnread(e) && NothingNonFinite(e)
    ensures JudgeA6(e).evidenceMissing <==> LacksA6(e)
    ensures JudgeA6(e).detail.Plain? || !JudgeA6(e).passed
  {
    NonFiniteOccurs(e.losses);
    NonFiniteOccurs(e.gradNorms);
  }

  /** Each primary criterion lays its failure to missing evidence exactly when evidence is missing. */
  lemma {:induction false} GapsExactly(e: Evidence)
    ensures JudgeA1(e).evidenceMissing <==> !e.timedOut && e.exitCode.None?
    ensures JudgeA2(e).evidenceMissing <==> LacksA2(e)
    ensures JudgeA3(e).evidenceMissing <==> LacksA3(e)
    ensures JudgeA5(e).evidenceMissing <==> LacksA5(e)
    ensures JudgeA6(e).evidenceMissing <==> LacksA6(e)
    ensures JudgeA7(e).evidenceMissing <==> e.nonfiniteSkips.None? && e.failClosedGuarantee == ""
  {
    A3Exactly(e);
    A5Exactly(e);
    AnomalyExactly(e);
  }

  /**
   Absent readings that do not stand in the way of a usable tier: gradient norms without a single number, no source of
   the reload evidence, no step totals.
   */
  lemma {:induction false} AbsentReadingsThatPass(table: seq<Row>, e: Evidence, second: Option<Evidence>, dual: bool)
    requires JudgeTier(table, e, second, dual).passed
    ensures JudgeTier(table, e.(gradNorms := [Missing]), second, dual).passed
    ensures JudgeTier(table, e.(a3Source := ""), second, dual).passed
    ensures JudgeTier(table, e.(stepsPerStep := None, stepsDeclaredTotal := None), second, dual).passed
  {
    UsableExactly(table, e, second, dual);
    StaysUsable(table, e.(gradNorms := [Missing]), second, dual);
    StaysUsable(table, e.(a3Source := ""), second, dual);
    StaysUsable(table, e.(stepsPerStep := None, stepsDeclaredTotal := None), second, dual);
  }

  lemma {:induction false} StaysUsable(table: seq<Row>, e': Evidence, second: Option<Evidence>, dual: bool)
    requires UsableEvidence(e')
    ensures JudgeTier(table, e', second, dual).passed
  {
    UsableExactly(table, e', second, dual);
  }

  predicate StepGateApplies(e: Evidence) {
    var threshold := ResolveMinOptimizerSteps(e.minOptimizerSteps);
    threshold.None? || !StepGateNotApplicable(e, threshold.value)
  }

  /** Absent readings that do: each of them alone keeps a tier from being usable. */
  lemma {:induction false} AbsentReadingsThatBlock(table: seq<Row>, e: Evidence, second: Option<Evidence>, dual: bool)
    requires || e.exitCode.None? || e.optimizerSteps.None? || e.checkpointReloadable.None?
             || e.losses == [] || Missing in e.losses || e.gradNorms == [] || e.artifacts == {}
             || (e.nonfiniteSkips.None? && e.failClosedGuarantee == "")
             || (e.weightChanged.None? && StepGateApplies(e))
    ensures !JudgeTier(table, e, second, dual).passed
  {
    UsableExactly(table, e, second, dual);
    assert "checkpoint" in {"config_backup", "training_log", "checkpoint", "metrics"};
  }

  // ----- status, class and flag agree

  lemma {:induction false} ClassifierRange(e: Evidence, a6: Criterion)
    ensures ClassifyFailure(e, a6) != Some(GateNotApplicable) && ClassifyFailure(e, a6) != Some(EvidenceGap)
  {
    LogMatchFinds(LOG_ORDER, e.logMatches);
  }

  lemma {:induction false} LogMatchFinds(order: seq<FailureClass>, matches: set<FailureClass>)
    ensures match FirstLogMatch(order, matches)
            case None => forall c | c in order :: c !in matches
            case Some(hit) => exists k :: 0 <= k < |order| && order[k] == hit && hit in matches
                                          && forall j | 0 <= j < k :: order[j] !in matches
  {
    if order != [] && order[0] !in matches {
      LogMatchFinds(order[1..], matches);
      var hit := FirstLogMatch(order[1..], matches);
      if hit.Some? {
        var k :| 0 <= k < |order[1..]| && order[1..][k] == hit.value
                 && forall j | 0 <= j < k :: order[1..][j] !in matches;
        assert order[k + 1] == hit.value;
        assert forall j | 0 <= j < k + 1 :: order[j] !in matches;
      }
    }
  }

  lemma {:induction false} PrimaryIsA2AndOthers(e: Evidence)
    ensures AllPass(Primary(e)) <==> JudgeA2(e).passed && OthersPass(e)
  {
    var p := Primary(e);
    assert AllPass(p) <==> p[0].passed && p[1].passed && p[2].passed && p[3].passed && p[4].passed && p[5].passed;
  }

  /** What the flags of a judgement say. */
  lemma {:induction false} FlagsMean(table: seq<Row>, e: Evidence, second: Option<Evidence>, dual: bool)
    ensures var j := JudgeTier(table, e, second, dual);
            && (j.primaryOthersOk <==> OtherEvidence(e))
            && (j.primaryEvidenceGap <==> j.failureClass == Some(EvidenceGap))
            && (j.countsTowardMaxContext <==> j.failureClass == Some(RealOom))
            && (j.passed <==> j.failureClass.None?)
  {
    UsableExactly(table, e, second, dual);
    OthersExactly(e);
    StepRulesAgree(e);
    PrimaryIsA2AndOthers(e);
    ClassifierRange(e, JudgeA6(e));
    LogMatchFinds(LOG_ORDER, e.logMatches);
  }

  /** The three statuses are the three kinds of failure class, and the gate class is exactly the flagged, otherwise clean tier. */
  lemma {:induction false} StatusMatchesClass(table: seq<Row>, e: Evidence, second: Option<Evidence>, dual: bool)
    ensures var j := JudgeTier(table, e, second, dual);
            && (LedgerStatus(j).Usable? <==> j.failureClass == None)
            && (LedgerStatus(j).NotMeasurable?
                <==> j.failureClass == Some(GateNotApplicable) || j.failureClass == Some(EvidenceGap))
            && (j.failureClass == Some(GateNotApplicable)
                <==> UsabilityStepCriterion(e).notApplicable && OthersPass(e))
            && (j.passed <==> JudgeA2(e).passed && OthersPass(e))
  {
    ClassifierRange(e, JudgeA6(e));
    PrimaryIsA2AndOthers(e);
    StepRulesAgree(e);
  }

  /** Time-outs are named by the clock and the exit code alone, and no log text overrides the two reserved codes. */
  lemma {:induction false} ExitCodesDecide(table: seq<Row>, e: Evidence, second: Option<Evidence>, dual: bool)
    ensures var failure := JudgeTier(table, e, second, dual).failureClass;
            && (failure == Some(Timeout) <==> e.timedOut || e.exitCode == Some(124))
            && (!e.timedOut && e.exitCode == Some(86) ==> failure == Some(PipelineP2PTimeout))
            && (!e.timedOut && e.exitCode == Some(21) ==> failure == Some(PPRolloutWallClockCap))
  {
    PrimaryIsA2AndOthers(e);
    LogMatchFinds(LOG_ORDER, e.logMatches);
    assert Timeout !in LOG_ORDER;
    var p := Primary(e);
    assert p[0] == JudgeA1(e);
  }

  /** The run was stopped by nothing that a time-out or a reserved exit code names. */
  predicate NoProcessFinding(e: Evidence) {
    !e.timedOut && e.exitCode != Some(124) && e.exitCode != Some(86) && e.exitCode != Some(21)
  }

  /** A NaN or an infinity that was read is an anomaly whatever the log says, and never an out-of-memory. */
  lemma {:induction false} NonFiniteMeansAnomaly(table: seq<Row>, e: Evidence, second: Option<Evidence>, dual: bool)
    requires NoProcessFinding(e) && e.losses != [] && e.gradNorms != [] && !NothingNonFinite(e)
    ensures JudgeTier(table, e, second, dual).failureClass == Some(NumericAnomaly)
    ensures !JudgeTier(table, e, second, dual).countsTowardMaxContext
  {
    AnomalyExactly(e);
    PrimaryIsA2AndOthers(e);
    A6IsPrimary(e);
  }

  lemma {:induction false} A6IsPrimary(e: Evidence)
    ensures var p := Primary(e); p[4] == JudgeA6(e) && p[4] in p
  {
  }

  /** A loss that was not read, with nothing non-finite, is put before a human whatever the log says. */
  lemma {:induction false} UnreadLossIsUnclassified(table: seq<Row>, e: Evidence, second: Option<Evidence>, dual: bool)
    requires NoProcessFinding(e) && LossUnread(e) && NothingNonFinite(e)
    ensures JudgeTier(table, e, second, dual).failureClass == Some(Unclassified)
  {
    AnomalyExactly(e);
    PrimaryIsA2AndOthers(e);
    A6IsPrimary(e);
  }

  /** The order of precedence of the log classes, spelled out. */
  lemma {:induction false} LogOrderSpelledOut(m: set<FailureClass>)
    ensures FirstLogMatch(LOG_ORDER, m)
            == if NumericAnomaly in m then Some(NumericAnomaly)
               else if FrameworkUnimplemented in m then Some(FrameworkUnimplemented)
               else if ConfigInvalid in m then Some(ConfigInvalid)
               else if DataProblem in m then Some(DataProblem)
               else if PipelineP2PTimeout in m then Some(PipelineP2PTimeout)
               else if PPRolloutWallClockCap in m then Some(PPRolloutWallClockCap)
               else if NcclCollectiveTimeout in m then Some(NcclCollectiveTimeout)
               else if CommHardware in m then Some(CommHardware)
               else if RealOom in m then Some(RealOom)
               else None
  {
    LogMatchFinds(LOG_ORDER, m);
    var t := LOG_ORDER;
    assert t[0] == NumericAnomaly && t[1] == FrameworkUnimplemented && t[2] == ConfigInvalid && t[3] == DataProblem;
    assert t[4] == PipelineP2PTimeout && t[5] == PPRolloutWallClockCap && t[6] == NcclCollectiveTimeout;
    assert t[7] == CommHardware && t[8] == RealOom;
  }

  /** No class at all: nothing stopped the run, it exited 0 or not at all, and neither its numbers nor its log say anything. */
  lemma {:induction false} NoClassExactly(e: Evidence)
    ensures ClassifyFailure(e, JudgeA6(e)).None?
            <==> && !e.timedOut && (e.exitCode.None? || e.exitCode == Some(0))
                 && (e.losses == [] || e.gradNorms == [] || NothingNonFinite(e)) && !(LossUnread(e) && NothingNonFinite(e))
                 && e.logMatches !! {NumericAnomaly, FrameworkUnimplemented, ConfigInvalid, DataProblem, PipelineP2PTimeout,
                                     PPRolloutWallClockCap, NcclCollectiveTimeout, CommHardware, RealOom}
  {
    AnomalyExactly(e);
    LogOrderSpelledOut(e.logMatches);
  }

  lemma {:induction false} FailedProcessShows(e: Evidence)
    ensures e.exitCode.Some? && e.exitCode.value != 0 ==>
              Primary(e)[0] in Primary(e) && !Primary(e)[0].passed && !Primary(e)[0].evidenceMissing
    ensures JudgeA1(e).passed <==> !e.timedOut && e.exitCode == Some(0)
  {
  }

  /**
   With nothing found in the process or the numbers, the first class of the log is the class of an unusable tier, but
   for a hardware text after a clean exit; without a log class a failed process stays unclassified.
   */
  lemma {:induction false} LogDecides(table: seq<Row>, e: Evidence, second: Option<Evidence>, dual: bool)
    requires NoProcessFinding(e) && !UsableEvidence(e) && !(UsabilityStepCriterion(e).notApplicable && OtherEvidence(e))
    requires NothingNonFinite(e) && !LossUnread(e)
    ensures var failure, logged := JudgeTier(table, e, second, dual).failureClass, FirstLogMatch(LOG_ORDER, e.logMatches);
            && (logged.Some? && !(logged == Some(CommHardware) && e.exitCode == Some(0)) ==> failure == logged)
            && (logged.None? && e.exitCode.Some? && e.exitCode.value != 0 ==> failure == Some(Unclassified))
  {
    UsableExactly(table, e, second, dual);
    OthersExactly(e);
    AnomalyExactly(e);
    LogMatchFinds(LOG_ORDER, e.logMatches);
    FailedProcessShows(e);
  }

  /** No class but the hardware one comes first in the log, and that one only in a run that exited cleanly. */
  predicate LogIsQuiet(e: Evidence) {
    && (forall k | 0 <= k < 7 :: LOG_ORDER[k] !in e.logMatches)
    && (RealOom in e.logMatches ==> CommHardware in e.logMatches)
    && (CommHardware in e.logMatches ==> e.exitCode == Some(0))
  }

  /** A loss was not read although both series have entries; this is put before a human instead of being called a gap. */
  predicate LossUnread(e: Evidence) {
    e.losses != [] && e.gradNorms != [] && (e.lossesUnavailable || Missing in e.losses)
  }

  /**
   An evidence gap occurs exactly when something fails, everything that fails fails for want of evidence, no loss of an
   otherwise present series is unread, the process did not fail, and the log is quiet.
   */
  lemma {:induction false} EvidenceGapExactly(table: seq<Row>, e: Evidence, second: Option<Evidence>, dual: bool)
    ensures JudgeTier(table, e, second, dual).failureClass == Some(EvidenceGap)
            <==> && !AllPass(Primary(e)) && (forall c | c in Primary(e) :: c.passed || c.evidenceMissing)
                 && !e.timedOut && (e.exitCode.None? || e.exitCode == Some(0))
                 && !LossUnread(e) && LogIsQuiet(e)
  {
    ClassifierRange(e, JudgeA6(e));
    QuietLog(e.logMatches);
    StepRulesAgree(e);
    var p := Primary(e);
    assert p[0] == JudgeA1(e) && p[1] == JudgeA2(e) && p[4] == JudgeA6(e);
    assert p[0] in p && p[1] in p && p[4] in p;
    OnlyGaps(p);
  }

  lemma {:induction false} OnlyGaps(p: seq<Criterion>)
    ensures (forall c | c in p :: c.passed || c.evidenceMissing)
            <==> forall k | 0 <= k < |p| && !p[k].passed :: p[k].evidenceMissing
  {
    if forall c | c in p :: c.passed || c.evidenceMissing {
      forall k | 0 <= k < |p| && !p[k].passed ensures p[k].evidenceMissing {
        assert p[k] in p;
      }
    }
  }

  /** A log whose first class is the hardware one, or that has none, names nothing earlier. */
  lemma {:induction false} QuietLog(matches: set<FailureClass>)
    ensures FirstLogMatch(LOG_ORDER, matches).None? || FirstLogMatch(LOG_ORDER, matches) == Some(CommHardware)
            <==> && (forall k | 0 <= k < 7 :: LOG_ORDER[k] !in matches)
                 && (RealOom in matches ==> CommHardware in matches)
    ensures FirstLogMatch(LOG_ORDER, matches).None? ==> CommHardware !in matches
    ensures FirstLogMatch(LOG_ORDER, matches) == Some(CommHardware) ==> CommHardware in matches
  {
    LogMatchFinds(LOG_ORDER, matches);
    assert LOG_ORDER[7] == CommHardware && LOG_ORDER[8] == RealOom;
    assert forall k | 0 <= k < 7 :: LOG_ORDER[k] != CommHardware;
  }

  /** The second run and the dual-channel switch reach only the diagnostic criterion. */
  lemma {:induction false} DiagnosticsDoNotDecide(table: seq<Row>, table': seq<Row>, e: Evidence,
                               second: Option<Evidence>, second': Option<Evidence>, dual: bool, dual': bool)
    ensures var j, j' := JudgeTier(table, e, second, dual), JudgeTier(table', e, second', dual');
            j' == j.(a4 := j'.a4) && LedgerStatus(j') == LedgerStatus(j)
  {
  }

  // ----- max context

  /** When a tier is classed as a real out-of-memory, in terms of its evidence alone. */
  predicate OomEvidence(e: Evidence) {
    && !e.timedOut && e.exitCode != Some(124) && e.exitCode != Some(86) && e.exitCode != Some(21)
    && RealOom in e.logMatches
    && (forall k | 0 <= k < |LOG_ORDER| - 1 :: LOG_ORDER[k] !in e.logMatches)
    && (e.losses != [] && e.gradNorms != [] ==>
          && !e.lossesNonfinite && !AnyNonFinite(e.losses) && !AnyNonFinite(e.gradNorms)
          && !e.lossesUnavailable && Missing !in e.losses)
    && !(UsabilityStepCriterion(e).notApplicable && OthersPass(e))
    && !(JudgeA2(e).passed && OthersPass(e))
  }

  lemma {:induction false} RealOomExactly(table: seq<Row>, e: Evidence, second: Option<Evidence>, dual: bool)
    ensures JudgeTier(table, e, second, dual).failureClass == Some(RealOom) <==> OomEvidence(e)
  {
    PrimaryIsA2AndOthers(e);
    LogMatchFinds(LOG_ORDER, e.logMatches);
    assert LOG_ORDER[8] == RealOom;
    assert forall k | 0 <= k < 8 :: LOG_ORDER[k] != RealOom;
  }

  /** The ledger records a length exactly for passing tiers (as feasible) and real out-of-memory tiers (as a boundary). */
  lemma {:induction false} MaxContextExactly(table: seq<Row>, e: Evidence, second: Option<Evidence>, dual: bool, length: Option<int>)
    ensures var j := JudgeTier(table, e, second, dual);
            MaxContext(j, length)
            == if length.None? then None
               else if JudgeA2(e).passed && OthersPass(e) then Some((length.value, Feasible))
               else if OomEvidence(e) then Some((length.value, OomBoundary))
               else None
  {
    PrimaryIsA2AndOthers(e);
    RealOomExactly(table, e, second, dual);
  }

  /**
   A clean exit does not rule the class out: a run that exits 0 and lacks only its skip count becomes a real
   out-of-memory, with a recorded boundary, as soon as its log quotes an out-of-memory text.
   */
  lemma {:induction false} QuotedOomAfterCleanExit(table: seq<Row>, e: Evidence, length: int)
    requires JudgeTier(table, e, None, false).passed && e.failClosedGuarantee == ""
    ensures var quoted := e.(nonfiniteSkips := None, logMatches := {RealOom});
            var j := JudgeTier(table, quoted, None, false);
            && JudgeA1(quoted).passed && j.failureClass == Some(RealOom)
            && LedgerStatus(j) == Unusable && MaxContext(j, Some(length)) == Some((length, OomBoundary))
  {
    assert LOG_ORDER[8] == RealOom;
    OnlyMatch(LOG_ORDER, RealOom);
    LosingSkipsOnly(table, e, {RealOom});
  }

  /** The same run with a silent log is an evidence gap, and records nothing. */
  lemma {:induction false} QuietLogAfterCleanExit(table: seq<Row>, e: Evidence, length: int)
    requires JudgeTier(table, e, None, false).passed && e.failClosedGuarantee == ""
    ensures var j := JudgeTier(table, e.(nonfiniteSkips := None, logMatches := {}), None, false);
            j.failureClass == Some(EvidenceGap) && LedgerStatus(j) == NotMeasurable && MaxContext(j, Some(length)) == None
  {
    NoMatch(LOG_ORDER);
    LosingSkipsOnly(table, e, {});
  }

  lemma {:induction false} OnlyMatch(order: seq<FailureClass>, c: FailureClass)
    requires c in order
    ensures FirstLogMatch(order, {c}) == Some(c)
  {
    if order[0] != c {
      OnlyMatch(order[1..], c);
    }
  }

  lemma {:induction false} NoMatch(order: seq<FailureClass>)
    ensures FirstLogMatch(order, {}) == None
  {
    if order != [] {
      NoMatch(order[1..]);
    }
  }

  /** A passing tier that loses its skip count and gets another log is left with the log's first class, or a gap. */
  lemma {:induction false} LosingSkipsOnly(table: seq<Row>, e: Evidence, matches: set<FailureClass>)
    requires JudgeTier(table, e, None, false).passed && e.failClosedGuarantee == "" && CommHardware !in matches
    ensures var j := JudgeTier(table, e.(nonfiniteSkips := None, logMatches := matches), None, false);
            && !j.passed && JudgeA1(e).passed
            && (var logged := FirstLogMatch(LOG_ORDER, matches);
                if logged.None? then j.primaryEvidenceGap && j.failureClass == Some(EvidenceGap)
                else !j.primaryEvidenceGap && j.failureClass == logged && !(j.stepGateNotApplicable && j.primaryOthersOk))
  {
    var lost := e.(nonfiniteSkips := None, logMatches := matches);
    PrimaryIsA2AndOthers(e);
    PrimaryIsA2AndOthers(lost);
    StepRulesAgree(e);
    assert JudgeA2(lost) == JudgeA2(e) && JudgeA1(lost) == JudgeA1(e) && JudgeA6(lost) == JudgeA6(e);
    assert UsabilityStepCriterion(lost) == UsabilityStepCriterion(e);
    assert !JudgeA7(lost).passed && JudgeA7(lost).evidenceMissing;
    var p := Primary(lost);
    assert forall k | 0 <= k < |p| && !p[k].passed :: p[k] == JudgeA7(lost);
    LogMatchFinds(LOG_ORDER, matches);
    assert ClassifyFailure(lost, JudgeA6(lost)) == FirstLogMatch(LOG_ORDER, matches);
  }

  // ----- A4 is sound

  /** Two texts, both known and not the same. */
  predicate Apart(a: Option<string>, b: Option<string>) {
    a.Some? && b.Some? && a.value != "" && b.value != "" && a.value != b.value
  }

  predicate BothStamped(a: Evidence, b: Evidence) {
    a.firstTimestamp.Some? && b.firstTimestamp.Some? && a.firstTimestamp.value != "" && b.firstTimestamp.value != ""
  }

  /** Another run root and another output identity, or one of them and two time stamps; never one and the same stamp. */
  predicate Independent(a: Evidence, b: Evidence) {
    && !(BothStamped(a, b) && a.firstTimestamp == b.firstTimestamp)
    && if BothStamped(a, b) then Apart(a.runRoot, b.runRoot) || Apart(a.outputIdentity, b.outputIdentity)
       else Apart(a.runRoot, b.runRoot) && Apart(a.outputIdentity, b.outputIdentity)
  }

  lemma {:induction false} SignalsExactly(a: Evidence, b: Evidence)
    ensures IndependenceSignals(a, b) >= MIN_INDEPENDENCE_SIGNALS <==> Independent(a, b)
  {
  }

  /** First losses that are step 1 on both sides are read and equal; NaN equals nothing. */
  predicate FirstStepAgrees(first: Evidence, second: Evidence)
    requires first.losses != [] && second.losses != []
  {
    first.firstLoggedStep == Some(1) && second.firstLoggedStep == Some(1) ==>
      first.losses[0] == second.losses[0] && !first.losses[0].Missing? && !first.losses[0].NaN?
  }

  /** The final losses are read and, unless their difference is no number, within the tolerance. */
  predicate FinalAgrees(a: Reading, b: Reading, tol: real) {
    && !a.Missing? && !b.Missing?
    && if a.Finite? && b.Finite? then Abs(a.value - b.value) <= tol else a.NaN? || b.NaN? || a == b
  }

  /** The runs themselves: both succeeded with the same steps and the same verdict on the weights. */
  predicate SameOutcome(first: Evidence, second: Evidence) {
    && first.exitCode == Some(0) && second.exitCode == Some(0)
    && first.optimizerSteps == second.optimizerSteps && first.weightChanged == second.weightChanged
  }

  /** Final losses that are equal numbers prove nothing by themselves. */
  predicate ChannelsSpeak(first: Evidence, second: Evidence, a: Reading, b: Reading, dual: bool) {
    a.Finite? && a == b ==>
      if first.ckptSha256.Some? && second.ckptSha256.Some?
      then first.ckptSha256 == second.ckptSha256 ==> Independent(first, second)
      else !dual
  }

  /** Everything a passing A4 rests on; the sign-flip sub-check does not appear. */
  predicate A4Conditions(table: seq<Row>, first: Evidence, second: Evidence, dual: bool) {
    && SameOutcome(first, second)
    && first.losses != [] && second.losses != [] && FirstStepAgrees(first, second)
    && ResolveTierCalibration(table, first.tier).Some?
    && var a, b := first.losses[|first.losses| - 1], second.losses[|second.losses| - 1];
       FinalAgrees(a, b, ResolveTierCalibration(table, first.tier).value.tol) && ChannelsSpeak(first, second, a, b, dual)
  }

  lemma {:induction false} GapMeans(a: Reading, b: Reading, tol: real)
    requires !a.Missing? && !b.Missing?
    ensures !Exceeds(FinalGap(a, b), tol) <==> FinalAgrees(a, b, tol)
    ensures FinalGap(a, b) == Exactly(0.0) <==> a.Finite? && a == b
    ensures !Exceeds(FinalGap(a, b), tol) ==> !FlipsSign(a, b, tol)
  {
    if a.Finite? && b.Finite? {
      SignFlipMeans(a.value, b.value, tol);
    }
  }

  /** A4 passes exactly on its conditions: sub-check 3 never changes the verdict sub-check 2 left. */
  lemma {:induction false} A4PassesExactly(table: seq<Row>, first: Evidence, second: Evidence, dual: bool)
    ensures JudgeA4(table, first, Some(second), dual).passed <==> A4Conditions(table, first, second, dual)
  {
    SignalsExactly(first, second);
    if first.losses != [] && second.losses != [] {
      var a, b := first.losses[|first.losses| - 1], second.losses[|second.losses| - 1];
      var row := ResolveTierCalibration(table, first.tier);
      if !a.Missing? && !b.Missing? && row.Some? {
        GapMeans(a, b, row.value.tol);
      }
    }
  }

  /** A4 lays its failure to missing evidence exactly when a run, a series, a calibration or a telling channel is missing. */
  lemma {:induction false} A4GapExactly(table: seq<Row>, first: Evidence, second: Evidence, dual: bool)
    ensures JudgeA4(table, first, None, dual).evidenceMissing
    ensures JudgeA4(table, first, Some(second), dual).evidenceMissing
            <==> && SameOutcome(first, second)
                 && (first.losses == [] || second.losses == []
                     || (FirstStepAgrees(first, second)
                         && (ResolveTierCalibration(table, first.tier).None?
                             || var a, b := first.losses[|first.losses| - 1], second.losses[|second.losses| - 1];
                                FinalAgrees(a, b, ResolveTierCalibration(table, first.tier).value.tol)
                                && !ChannelsSpeak(first, second, a, b, dual))))
  {
    SignalsExactly(first, second);
    if first.losses != [] && second.losses != [] {
      var a, b := first.losses[|first.losses| - 1], second.losses[|second.losses| - 1];
      var row := ResolveTierCalibration(table, first.tier);
      if !a.Missing? && !b.Missing? && row.Some? {
        GapMeans(a, b, row.value.tol);
      }
    }
  }

  ghost predicate AllFinite(series: seq<Reading>) {
    forall k | 0 <= k < |series| :: series[k].Finite?
  }

  lemma {:induction false} ConditionsBound(table: seq<Row>, first: Evidence, second: Evidence, dual: bool)
    requires ValidTable(table) && A4Conditions(table, first, second, dual)
    requires AllFinite(first.losses) && AllFinite(second.losses)
    ensures first.firstLoggedStep == second.firstLoggedStep == Some(1) ==> first.losses[0] == second.losses[0]
    ensures Abs(first.losses[|first.losses| - 1].value - second.losses[|second.losses| - 1].value)
            <= ResolveTierCalibration(table, first.tier).value.tol <= HARD_UPPER_BOUND
  {
    ResolutionIsExact(table, first.tier);
  }

  /** Over finite readings a pass bounds the final gap by the tier's tolerance and so by the cap. */
  lemma {:induction false} A4Sound(table: seq<Row>, first: Evidence, second: Evidence, dual: bool)
    requires ValidTable(table) && JudgeA4(table, first, Some(second), dual).passed
    requires AllFinite(first.losses) && AllFinite(second.losses)
    ensures first.losses != [] && second.losses != [] && first.optimizerSteps == second.optimizerSteps
    ensures first.firstLoggedStep == second.firstLoggedStep == Some(1) ==> first.losses[0] == second.losses[0]
    ensures ResolveTierCalibration(table, first.tier).Some?
    ensures Abs(first.losses[|first.losses| - 1].value - second.losses[|second.losses| - 1].value)
            <= ResolveTierCalibration(table, first.tier).value.tol <= HARD_UPPER_BOUND
  {
    A4PassesExactly(table, first, second, dual);
    ConditionsBound(table, first, second, dual);
  }

  /** Two chained passes stay within the smallest known bug signature. */
  lemma {:induction false} ChainedPassesStayUnderSignature(table: seq<Row>, a: Evidence, b: Evidence, c: Evidence, dual: bool)
    requires ValidTable(table) && AllFinite(a.losses) && AllFinite(b.losses) && AllFinite(c.losses)
    requires JudgeA4(table, a, Some(b), dual).passed && JudgeA4(table, b, Some(c), dual).passed
    ensures a.losses != [] && c.losses != []
    ensures Abs(a.losses[|a.losses| - 1].value - c.losses[|c.losses| - 1].value) <= MIN_BUG_SIGNATURE
  {
    A4Sound(table, a, b, dual);
    A4Sound(table, b, c, dual);
  }

  /** Identical fingerprints with identical final losses pass only for two runs shown to be independent. */
  lemma {:induction false} PerfectReproductionNeedsIndependence(table: seq<Row>, first: Evidence, second: Evidence, dual: bool)
    requires JudgeA4(table, first, Some(second), dual).passed
    requires first.ckptSha256.Some? && first.ckptSha256 == second.ckptSha256
    requires first.losses != [] && second.losses != []
    requires first.losses[|first.losses| - 1].Finite?
    requires first.losses[|first.losses| - 1] == second.losses[|second.losses| - 1]
    ensures IndependenceSignals(first, second) >= 2 && first != second
    ensures KnownToDiffer(first.runRoot, second.runRoot) || KnownToDiffer(first.outputIdentity, second.outputIdentity)
    ensures Known(first.firstTimestamp) && Known(second.firstTimestamp) ==> first.firstTimestamp != second.firstTimestamp
  {
    A4PassesExactly(table, first, second, dual);
  }

  lemma {:induction false} SignalsAreSymmetric(first: Evidence, second: Evidence)
    ensures IndependenceSignals(first, second) == IndependenceSignals(second, first)
  {
  }

  /** With the same tier coordinates the order of the two runs does not matter. */
  lemma {:induction false} A4IsSymmetric(table: seq<Row>, first: Evidence, second: Evidence, dual: bool)
    requires first.tier == second.tier
    ensures JudgeA4(table, first, Some(second), dual).passed == JudgeA4(table, second, Some(first), dual).passed
    ensures JudgeA4(table, first, Some(second), dual).evidenceMissing
            == JudgeA4(table, second, Some(first), dual).evidenceMissing
  {
    A4PassesExactly(table, first, second, dual);
    A4PassesExactly(table, second, first, dual);
    SignalsAreSymmetric(first, second);
    if first.losses != [] && second.losses != [] {
      var a, b := first.losses[|first.losses| - 1], second.losses[|second.losses| - 1];
      var row := ResolveTierCalibration(table, first.tier);
      if a.Finite? && b.Finite? && row.Some? {
        SignFlipMeans(a.value, b.value, row.value.tol);
        SignFlipMeans(b.value, a.value, row.value.tol);
      }
    }
  }

  /** A final loss of NaN is never further away than the tolerance, so it passes where any agreeing final loss would. */
  lemma {:induction false} NanFinalLossPasses(table: seq<Row>, first: Evidence, second: Evidence, dual: bool)
    requires A4Conditions(table, first, second, dual)
    requires |first.losses| > 1
    ensures JudgeA4(table, first.(losses := first.losses[..|first.losses| - 1] + [NaN]), Some(second), dual).passed
  {
    var nan := first.(losses := first.losses[..|first.losses| - 1] + [NaN]);
    assert nan.losses[0] == first.losses[0];
    A4PassesExactly(table, nan, second, dual);
  }

  /** The final gap escapes the tolerance test exactly when it is not a number. */
  lemma {:induction false} A4PassOrNotANumber(table: seq<Row>, first: Evidence, second: Evidence, dual: bool)
    requires JudgeA4(table, first, Some(second), dual).passed
    ensures first.losses != [] && second.losses != []
    ensures var a, b := first.losses[|first.losses| - 1], second.losses[|second.losses| - 1];
            || (a.Finite? && b.Finite? && Abs(a.value - b.value) <= ResolveTierCalibration(table, first.tier).value.tol)
            || a.NaN? || b.NaN? || (a == b && !a.Finite?)
  {
    A4PassesExactly(table, first, second, dual);
  }
}
