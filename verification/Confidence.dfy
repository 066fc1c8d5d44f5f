/**
 Which scores a session can reach.  Every value the engines write as PASSED
 carries a confidence at or above its own threshold, so with the default risk
 thresholds the LOW_CONFIDENCE rejection never happens.
 */
module Confidence {
  import opened Enums
  import opened Policy
  import opened Decision
  import opened Audit
  import opened Kyc
  import opened Tasks
  import OtpEngine = Otp

  function Floor(step: Step): real {
    match step
    case DocumentVerification => DOCUMENT_REVIEW_THRESHOLD
    case Liveness => LIVENESS_THRESHOLD
    case FaceMatch => FACE_MATCH_THRESHOLD
    case _ => 1.0
  }

  /** A payload that supports PASSED for the step; a purged (absent) one does too. */
  predicate Supports(step: Step, data: StepData) {
    StepConfidence(step, Passed, EMPTY_INTERNAL.(steps := map[step := data])) >= Floor(step)
  }

  /** The writes the platform performs: a payload every time, and a supported one for PASSED. */
  predicate EngineOp(op: Op) {
    op.SetCheck? ==>
      && (op.status.Passed? || op.status.Failed? || op.status.NeedsReview?)
      && op.data.Some?
      && (op.status.Passed? ==> Supports(op.step, op.data.value))
  }

  /** What a verified or exhausted OTP challenge writes. */
  function OtpOps(outcome: OtpEngine.VerifyResult, now: int): seq<Op> {
    match OtpEngine.CheckWritten(outcome)
    case None => []
    case Some(status) => [SetCheck(Otp, status, Some(NO_DATA), now)]
  }

  /** Everything the platform runs: the worker tasks, the OTP engine's writes, and operations that write no check. */
  ghost predicate Platform(task: Task) {
    task.Other? && task.op.SetCheck? ==> exists outcome, now :: task.op in OtpOps(outcome, now)
  }

  lemma TasksPerformEngineOps(policy: FlowPolicy, row: Row, task: Task, op: Op)
    requires op in TaskOps(policy, row, task)
    requires task.Other? ==> EngineOp(task.op)
    ensures EngineOp(op)
  {
    if task.FailureHook? && !Terminal(row.status) {
      if op in ReviewOps(row, task.steps, task.now) {
        HookIsEngineOp(row, task.steps, task.now, op);
      }
    }
  }

  lemma {:induction false} HookIsEngineOp(row: Row, steps: seq<Step>, now: int, op: Op)
    requires op in ReviewOps(row, steps, now)
    ensures EngineOp(op)
  {
    if steps != [] {
      if op in ReviewOps(row, steps[..|steps| - 1], now) {
        HookIsEngineOp(row, steps[..|steps| - 1], now, op);
      }
    }
  }

  lemma OtpWritesAreEngineOps(outcome: OtpEngine.VerifyResult, now: int, op: Op)
    requires op in OtpOps(outcome, now)
    ensures EngineOp(op)
  {
  }

  /** Every write in a log of platform tasks is one an engine makes. */
  lemma {:induction false} PlatformPerformsEngineOps(cfg: Config, s: Serial, runs: seq<Execution>, op: Op)
    requires forall k :: 0 <= k < |runs| ==> Platform(runs[k].task)
    requires op in TaskLog(cfg, s, runs)
    ensures EngineOp(op)
    decreases |runs|
  {
    var n := |runs| - 1;
    if op in TaskLog(cfg, s, runs[..n]) {
      PlatformPerformsEngineOps(cfg, s, runs[..n], op);
    } else {
      var task := runs[n].task;
      if task.Other? && task.op.SetCheck? {
        var outcome, now :| task.op in OtpOps(outcome, now);
        OtpWritesAreEngineOps(outcome, now, task.op);
      }
      TasksPerformEngineOps(cfg.policy, SeenRow(cfg, s, runs[..n], runs[n].seen), task, op);
    }
  }

  ghost predicate Confident(row: Row) {
    forall step ::
      && !StatusOf(row.checks, step).Skipped?
      && (StatusOf(row.checks, step).Passed? && step in row.internal.steps ==> Supports(step, row.internal.steps[step]))
  }

  lemma ApplyKeepsConfident(cfg: Config, row: Row, op: Op)
    requires Confident(row) && EngineOp(op)
    ensures Confident(Apply(cfg, row, op).row)
  {
    var after := Apply(cfg, row, op).row;
    forall step
      ensures !StatusOf(after.checks, step).Skipped?
      ensures StatusOf(after.checks, step).Passed? && step in after.internal.steps
              ==> Supports(step, after.internal.steps[step])
    {
      assert !StatusOf(row.checks, step).Skipped?;
    }
  }

  lemma {:induction false} RunKeepsConfident(cfg: Config, s: Serial, ops: seq<Op>)
    requires Confident(s.row)
    requires forall op :: op in ops ==> EngineOp(op)
    ensures Confident(RunOps(cfg, s, ops).row)
  {
    if ops != [] {
      RunKeepsConfident(cfg, s, ops[..|ops| - 1]);
      assert ops[|ops| - 1] in ops;
      ApplyKeepsConfident(cfg, RunOps(cfg, s, ops[..|ops| - 1]).row, ops[|ops| - 1]);
    }
  }

  lemma PassedConfidence(row: Row, step: Step)
    requires Confident(row) && StatusOf(row.checks, step).Passed?
    ensures StepConfidence(step, Passed, row.internal) >= Floor(step) >= 0.6
  {
  }

  lemma {:induction false} SomethingCounts(steps: seq<Step>, checks: map<Step, CheckStatus>, internal: Internal)
    requires steps != [] && Counts(StatusOf(checks, steps[0]))
    ensures TallyOf(steps, checks, internal).total > 0.0
  {
    if |steps| > 1 {
      var rest := steps[..|steps| - 1];
      assert rest[0] == steps[0];
      SomethingCounts(rest, checks, internal);
    }
  }

  lemma CancelWeight(c: real, total: real)
    requires total > 0.0
    ensures c * total / total == c
  {
  }

  /** All required steps passed with supported payloads: the weighted average is at least 60. */
  lemma PassedScore(policy: FlowPolicy, row: Row)
    requires Decidable(policy) && Confident(row)
    requires forall s :: s in policy.steps && !Hidden(s) ==> StatusOf(row.checks, s).Passed?
    ensures Score(policy, row.checks, row.internal) >= 60.0
  {
    var steps := DecidableSteps(policy);
    var witnessed :| witnessed in policy.steps && !Hidden(witnessed);
    assert witnessed in steps;
    assert steps[0] in steps;
    var t := TallyOf(steps, row.checks, row.internal);
    ContributionsExplainScore(steps, row.checks, row.internal);
    SomethingCounts(steps, row.checks, row.internal);
    forall part | part in t.contributions ensures 0.6 <= part.confidence && part.weight > 0.0 {
      PassedConfidence(row, part.step);
    }
    AverageAboveSixty(t);
  }

  lemma AverageAboveSixty(t: Tally)
    requires AddsUp(t) && t.total > 0.0
    requires forall part :: part in t.contributions ==> 0.6 <= part.confidence && part.weight > 0.0
    ensures ScoreOf(t) >= 60.0
  {
    SharesAbove(t.contributions, 0.6);
    SixtyPercent(t.weighted, t.total);
  }

  lemma SixtyPercent(weighted: real, total: real)
    requires total > 0.0 && 0.6 * total <= weighted
    ensures Round2(weighted / total * 100.0) >= 60.0
  {
    DivideMonotone(0.6 * total, weighted, total);
    CancelWeight(0.6, total);
    Round2Monotone(60.0, weighted / total * 100.0);
  }

  /** In every run of the platform's tasks, overlapping or not, no recorded decision names LOW_CONFIDENCE. */
  lemma {:induction false} LowConfidenceIsUnreachable(cfg: Config, now: int, ttl: int, runs: seq<Execution>)
    requires Decidable(cfg.policy) && cfg.thresholds == DEFAULT_THRESHOLDS
    requires forall k :: 0 <= k < |runs| ==> Platform(runs[k].task)
    ensures var start := Start(cfg.policy, now, ttl);
            forall e :: e in RunOps(cfg, start, TaskLog(cfg, start, runs)).entries ==> NamesNoLowConfidence(e)
  {
    var ops := TaskLog(cfg, Start(cfg.policy, now, ttl), runs);
    forall op | op in ops ensures EngineOp(op) {
      PlatformPerformsEngineOps(cfg, Start(cfg.policy, now, ttl), runs, op);
    }
    EngineRunsRecordNone(cfg, now, ttl, ops);
  }

  /** Neither a decision nor a blocked one gives LOW_CONFIDENCE as a reason. */
  predicate NamesNoLowConfidence(e: Entry) {
    && (e.payload.DecisionFields? ==> LowConfidence !in e.payload.reasons)
    && (e.payload.BlockedFields? ==> LowConfidence !in e.payload.reasons)
  }

  lemma EffectNamesNone(cfg: Config, row: Row, op: Op, e: Entry)
    requires LowConfidence !in Decide(cfg.policy, cfg.thresholds, row.checks, row.internal).reasons
    requires e in Apply(cfg, row, op).entries
    ensures NamesNoLowConfidence(e)
  {
  }

  lemma {:induction false} EngineRunsRecordNone(cfg: Config, now: int, ttl: int, ops: seq<Op>)
    requires Decidable(cfg.policy) && cfg.thresholds == DEFAULT_THRESHOLDS
    requires forall op :: op in ops ==> EngineOp(op)
    ensures forall e :: e in RunOps(cfg, Start(cfg.policy, now, ttl), ops).entries ==> NamesNoLowConfidence(e)
  {
    if ops != [] {
      var n := |ops| - 1;
      var before := RunOps(cfg, Start(cfg.policy, now, ttl), ops[..n]);
      EngineRunsRecordNone(cfg, now, ttl, ops[..n]);
      EngineWritesSuffice(cfg, now, ttl, ops[..n]);
      forall e | e in RunOp(cfg, before, ops[n]).entries ensures NamesNoLowConfidence(e) {
        if e !in before.entries {
          EffectNamesNone(cfg, before.row, ops[n], e);
        }
      }
    }
  }

  lemma {:induction false} EngineWritesSuffice(cfg: Config, now: int, ttl: int, ops: seq<Op>)
    requires Decidable(cfg.policy) && cfg.thresholds == DEFAULT_THRESHOLDS
    requires forall op :: op in ops ==> EngineOp(op)
    ensures var row := RunOps(cfg, Start(cfg.policy, now, ttl), ops).row;
            LowConfidence !in Decide(cfg.policy, cfg.thresholds, row.checks, row.internal).reasons
  {
    var start := Start(cfg.policy, now, ttl);
    RunKeepsConfident(cfg, start, ops);
    var row := RunOps(cfg, start, ops).row;
    DecideMeaning(cfg.policy, cfg.thresholds, row.checks, row.internal);
    if !HasHardFailure(cfg.policy, row.checks) && !HasPending(cfg.policy, row.checks)
       && !HasDoubt(cfg.policy, row.checks)
    {
      forall s | s in cfg.policy.steps && !Hidden(s) ensures StatusOf(row.checks, s).Passed? {
        assert !IsHardFailure(cfg.policy, row.checks, s);
        assert !StatusOf(row.checks, s).Pending?;
        assert !(StatusOf(row.checks, s).NeedsReview? || IsSoftFailure(cfg.policy, row.checks, s));
      }
      PassedScore(cfg.policy, row);
    }
  }

  // ---- The exact floor of the shipped flows ---------------------------------

  lemma {:induction false} TallySnoc(steps: seq<Step>, step: Step, checks: map<Step, CheckStatus>, internal: Internal)
    ensures TallyOf(steps + [step], checks, internal) == AddStep(TallyOf(steps, checks, internal), step, checks, internal)
  {
    assert (steps + [step])[..|steps|] == steps;
  }

  /** Adding a passed step raises the weighted sum by at least weight times floor. */
  lemma AddPassed(t: Tally, row: Row, step: Step, total: real, weighted: real)
    requires Confident(row) && StatusOf(row.checks, step).Passed?
    requires t.total == total && t.weighted >= weighted
    ensures var next := AddStep(t, step, row.checks, row.internal);
            && next.total == total + Weight(step)
            && next.weighted >= weighted + Floor(step) * Weight(step)
  {
    PassedConfidence(row, step);
    ScaleMonotone(Floor(step), StepConfidence(step, Passed, row.internal), Weight(step));
  }

  /** A shipped flow with every step passed scores at least 73.33, well above the reject line. */
  lemma ShippedFlowsScore(policy: FlowPolicy, row: Row)
    requires policy in FLOWS && Confident(row)
    requires forall s :: s in policy.steps && !Hidden(s) ==> StatusOf(row.checks, s).Passed?
    ensures Score(policy, row.checks, row.internal) >= 73.33
  {
    ShippedFlowsAreDecidable(policy);
    StepsScore(policy, row);
  }

  lemma StepsScore(policy: FlowPolicy, row: Row)
    requires Confident(row)
    requires DecidableSteps(policy) == [DocumentVerification, Otp]
             || DecidableSteps(policy) == [DocumentVerification, Liveness, FaceMatch, Otp]
    requires forall s :: s in DecidableSteps(policy) ==> StatusOf(row.checks, s).Passed?
    ensures Score(policy, row.checks, row.internal) >= 73.33
  {
    var steps := DecidableSteps(policy);
    assert steps[0] in steps && steps[1] in steps;
    if |steps| == 2 {
      CitizenTally(row);
      FloorScore(TallyOf(steps, row.checks, row.internal), 45.0, 33.0);
    } else {
      assert steps[2] in steps && steps[3] in steps;
      BiometricTally(row);
      FloorScore(TallyOf(steps, row.checks, row.internal), 95.0, 70.5);
    }
  }

  lemma DocumentTally(row: Row)
    requires Confident(row) && StatusOf(row.checks, DocumentVerification).Passed?
    ensures var t := TallyOf([DocumentVerification], row.checks, row.internal);
            t.total == 30.0 && t.weighted >= 18.0
  {
    TallySnoc([], DocumentVerification, row.checks, row.internal);
    assert [] + [DocumentVerification] == [DocumentVerification];
    AddPassed(TallyOf([], row.checks, row.internal), row, DocumentVerification, 0.0, 0.0);
  }

  lemma CitizenTally(row: Row)
    requires Confident(row)
    requires StatusOf(row.checks, DocumentVerification).Passed? && StatusOf(row.checks, Otp).Passed?
    ensures var t := TallyOf([DocumentVerification, Otp], row.checks, row.internal);
            t.total == 45.0 && t.weighted >= 33.0
  {
    DocumentTally(row);
    TallySnoc([DocumentVerification], Otp, row.checks, row.internal);
    assert [DocumentVerification] + [Otp] == [DocumentVerification, Otp];
    AddPassed(TallyOf([DocumentVerification], row.checks, row.internal), row, Otp, 30.0, 18.0);
  }

  lemma BiometricTally(row: Row)
    requires Confident(row)
    requires StatusOf(row.checks, DocumentVerification).Passed? && StatusOf(row.checks, Liveness).Passed?
    requires StatusOf(row.checks, FaceMatch).Passed? && StatusOf(row.checks, Otp).Passed?
    ensures var t := TallyOf([DocumentVerification, Liveness, FaceMatch, Otp], row.checks, row.internal);
            t.total == 95.0 && t.weighted >= 70.5
  {
    var c, i := row.checks, row.internal;
    var two := [DocumentVerification, Liveness];
    var three := [DocumentVerification, Liveness, FaceMatch];
    DocumentTally(row);
    TallySnoc([DocumentVerification], Liveness, c, i);
    assert [DocumentVerification] + [Liveness] == two;
    AddPassed(TallyOf([DocumentVerification], c, i), row, Liveness, 30.0, 18.0);
    TallySnoc(two, FaceMatch, c, i);
    assert two + [FaceMatch] == three;
    AddPassed(TallyOf(two, c, i), row, FaceMatch, 55.0, 35.5);
    TallySnoc(three, Otp, c, i);
    assert three + [Otp] == [DocumentVerification, Liveness, FaceMatch, Otp];
    AddPassed(TallyOf(three, c, i), row, Otp, 80.0, 55.5);
  }

  lemma FloorScore(t: Tally, total: real, weighted: real)
    requires t.total == total > 0.0 && t.weighted >= weighted
    requires weighted / total * 100.0 >= 73.33
    ensures ScoreOf(t) >= 73.33
  {
    DivideMonotone(weighted, t.weighted, total);
    Round2Monotone(73.33, t.weighted / t.total * 100.0);
  }
}
