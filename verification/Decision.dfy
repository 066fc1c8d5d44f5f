/**
 The decision engine (app/engines/decision.py): per-step results become one
 status and one score.  Confidences are exact reals; the score is rounded to
 hundredths, ties to even, as the source's `round(x, 2)` does.
 */
module Decision {
  import opened Enums
  import opened Policy

  /** Business weights, default 10 for a step that has none. */
  function Weight(step: Step): (w: real)
    ensures w > 0.0
  {
    match step
    case DocumentVerification => 30.0
    case Liveness => 25.0
    case FaceMatch => 25.0
    case Otp => 15.0
    case Signature => 5.0
    case _ => 10.0
  }

  /** The numbers a step's internal payload may carry; `None` is an absent key. */
  datatype StepData = StepData(authenticity: Option<real>, ocr: Option<real>, score: Option<real>)

  const NO_DATA := StepData(None, None, None)

  datatype RiskLevel = Accept | Review | Reject | Undecided

  datatype Risk = Risk(score: real, level: RiskLevel)

  /** `session.internal`: per-step payloads, the last risk, the last requeue. */
  datatype Internal = Internal(steps: map<Step, StepData>, risk: Option<Risk>, reconciledAt: Option<int>)

  const EMPTY_INTERNAL := Internal(map[], None, None)

  datatype Thresholds = Thresholds(accept: real, review: real)

  const DEFAULT_THRESHOLDS := Thresholds(80.0, 50.0)

  datatype Contribution = Contribution(step: Step, status: CheckStatus, weight: real, confidence: real, score: real)

  datatype Reason =
    | StepFailed(step: Step)
    | StepPending(step: Step)
    | StepReview(step: Step)
    | LowConfidence
    | MediumConfidence

  datatype Decision = Decision(
    status: SessionStatus,
    reasons: seq<Reason>,
    completed: bool,
    score: real,
    level: RiskLevel,
    contributions: seq<Contribution>)

  /** An absent check counts as pending. */
  function StatusOf(checks: map<Step, CheckStatus>, step: Step): CheckStatus {
    if step in checks then checks[step] else Pending
  }

  function StepConfidence(step: Step, status: CheckStatus, internal: Internal): real {
    var data := if step in internal.steps then internal.steps[step] else NO_DATA;
    if status.Passed? || status.NeedsReview? then
      var fallback := if status.NeedsReview? then 0.5 else 1.0;
      if step.DocumentVerification? then data.authenticity.GetOr(data.ocr.GetOr(fallback))
      else if step.Liveness? || step.FaceMatch? then data.score.GetOr(fallback)
      else fallback
    else 0.0
  }

  /** Nearest integer, ties to even. */
  function RoundHalfEven(x: real): int {
    var down := x.Floor;
    var rest := x - down as real;
    if rest < 0.5 || (rest == 0.5 && down % 2 == 0) then down else down + 1
  }

  function Hundredths(x: real): int {
    RoundHalfEven(x * 100.0)
  }

  function Round2(x: real): real {
    Hundredths(x) as real / 100.0
  }

  /** A rounded score is a whole number of hundredths: recording that number loses nothing. */
  lemma HundredthsAreExact(x: real)
    ensures Hundredths(Round2(x)) == Hundredths(x)
    ensures Round2(Round2(x)) == Round2(x)
  {
    assert Round2(x) * 100.0 == Hundredths(x) as real;
  }

  /** Running sums of the risk loop. */
  datatype Tally = Tally(total: real, weighted: real, contributions: seq<Contribution>)

  predicate Counts(status: CheckStatus) {
    !status.Pending? && !status.Skipped?
  }

  function ContributionOf(step: Step, status: CheckStatus, internal: Internal): Contribution {
    var confidence := StepConfidence(step, status, internal);
    Contribution(step, status, Weight(step), confidence, Round2(confidence * Weight(step)))
  }

  function Share(part: Contribution): real {
    part.confidence * part.weight
  }

  function Grow(t: Tally, part: Contribution): Tally {
    Tally(t.total + part.weight, t.weighted + Share(part), t.contributions + [part])
  }

  function AddStep(t: Tally, step: Step, checks: map<Step, CheckStatus>, internal: Internal): Tally {
    var status := StatusOf(checks, step);
    if Counts(status) then Grow(t, ContributionOf(step, status, internal)) else t
  }

  function TallyOf(steps: seq<Step>, checks: map<Step, CheckStatus>, internal: Internal): Tally {
    if steps == [] then Tally(0.0, 0.0, [])
    else AddStep(TallyOf(steps[..|steps| - 1], checks, internal), steps[|steps| - 1], checks, internal)
  }

  function ScoreOf(t: Tally): real {
    if t.total == 0.0 then 0.0 else Round2(t.weighted / t.total * 100.0)
  }

  function Score(policy: FlowPolicy, checks: map<Step, CheckStatus>, internal: Internal): real {
    ScoreOf(TallyOf(DecidableSteps(policy), checks, internal))
  }

  lemma {:induction false} TallyNext(steps: seq<Step>, i: nat, checks: map<Step, CheckStatus>, internal: Internal)
    requires i < |steps|
    ensures TallyOf(steps[..i + 1], checks, internal)
         == AddStep(TallyOf(steps[..i], checks, internal), steps[i], checks, internal)
  {
    assert steps[..i + 1][..i] == steps[..i];
  }

  /** The accumulating loop of `_compute_risk`. */
  method ComputeRisk(policy: FlowPolicy, checks: map<Step, CheckStatus>, internal: Internal)
    returns (score: real, contributions: seq<Contribution>)
    ensures score == Score(policy, checks, internal)
    ensures contributions == TallyOf(DecidableSteps(policy), checks, internal).contributions
  {
    var steps := DecidableSteps(policy);
    var total, weighted := 0.0, 0.0;
    contributions := [];
    for i := 0 to |steps|
      invariant Tally(total, weighted, contributions) == TallyOf(steps[..i], checks, internal)
    {
      TallyNext(steps, i, checks, internal);
      var status := StatusOf(checks, steps[i]);
      if !Counts(status) {
        continue;
      }
      var part := ContributionOf(steps[i], status, internal);
      total := total + part.weight;
      weighted := weighted + Share(part);
      contributions := contributions + [part];
    }
    assert steps[..|steps|] == steps;
    score := if total == 0.0 then 0.0 else Round2(weighted / total * 100.0);
  }

  predicate IsHardFailure(policy: FlowPolicy, checks: map<Step, CheckStatus>, step: Step) {
    StatusOf(checks, step).Failed? && (step.Liveness? || step !in policy.reviewOnFailure)
  }

  predicate IsSoftFailure(policy: FlowPolicy, checks: map<Step, CheckStatus>, step: Step) {
    StatusOf(checks, step).Failed? && !IsHardFailure(policy, checks, step)
  }

  function Reasons(steps: seq<Step>, reason: Step -> Reason): seq<Reason> {
    seq(|steps|, i requires 0 <= i < |steps| => reason(steps[i]))
  }

  function Decide(
    policy: FlowPolicy, thresholds: Thresholds, checks: map<Step, CheckStatus>, internal: Internal): Decision
  {
    var required := DecidableSteps(policy);
    var pending := Select(required, s => StatusOf(checks, s).Pending?);
    var hard := Select(required, s => IsHardFailure(policy, checks, s));
    var soft := Select(required, s => IsSoftFailure(policy, checks, s));
    var review := Select(required, s => StatusOf(checks, s).NeedsReview?);
    if hard != [] then
      Decision(Rejected, Reasons(hard, s => StepFailed(s)), true, 0.0, Reject, [])
    else
      var tally := TallyOf(required, checks, internal);
      var score := ScoreOf(tally);
      if pending != [] then
        Decision(InProgress, Reasons(pending, s => StepPending(s)), false, score, Undecided, tally.contributions)
      else if soft + review != [] then
        Decision(InReview, Reasons(soft + review, s => StepReview(s)), true, score, Review, tally.contributions)
      else if score < thresholds.review then
        Decision(Rejected, [LowConfidence], true, score, Reject, tally.contributions)
      else if score < thresholds.accept then
        Decision(InReview, [MediumConfidence], true, score, Review, tally.contributions)
      else
        Decision(Verified, [], true, score, Accept, tally.contributions)
  }

  // ---- What a decision means ------------------------------------------------

  ghost predicate SomeStep(policy: FlowPolicy, holds: Step -> bool) {
    exists s :: s in policy.steps && !Hidden(s) && holds(s)
  }

  ghost predicate HasHardFailure(policy: FlowPolicy, checks: map<Step, CheckStatus>) {
    SomeStep(policy, s => IsHardFailure(policy, checks, s))
  }

  ghost predicate HasPending(policy: FlowPolicy, checks: map<Step, CheckStatus>) {
    SomeStep(policy, s => StatusOf(checks, s).Pending?)
  }

  ghost predicate HasDoubt(policy: FlowPolicy, checks: map<Step, CheckStatus>) {
    SomeStep(policy, s => StatusOf(checks, s).NeedsReview? || IsSoftFailure(policy, checks, s))
  }

  lemma SelectNonEmpty(policy: FlowPolicy, keep: Step -> bool)
    ensures Select(DecidableSteps(policy), keep) != [] <==> SomeStep(policy, keep)
  {
    var kept := Select(DecidableSteps(policy), keep);
    if kept != [] {
      assert kept[0] in kept;
    }
    if SomeStep(policy, keep) {
      var s :| s in policy.steps && !Hidden(s) && keep(s);
      assert s in kept;
    }
  }

  lemma DoubtIsEither(policy: FlowPolicy, checks: map<Step, CheckStatus>)
    ensures HasDoubt(policy, checks) <==>
            SomeStep(policy, s => IsSoftFailure(policy, checks, s))
            || SomeStep(policy, s => StatusOf(checks, s).NeedsReview?)
  {
  }

  /** The four lists of `decide`, as conditions on the checks. */
  lemma ListsMeaning(policy: FlowPolicy, checks: map<Step, CheckStatus>)
    ensures var required := DecidableSteps(policy);
            && (Select(required, s => StatusOf(checks, s).Pending?) != [] <==> HasPending(policy, checks))
            && (Select(required, s => IsHardFailure(policy, checks, s)) != [] <==> HasHardFailure(policy, checks))
            && (HasDoubt(policy, checks) <==>
                Select(required, s => IsSoftFailure(policy, checks, s))
                + Select(required, s => StatusOf(checks, s).NeedsReview?) != [])
  {
    SelectNonEmpty(policy, s => StatusOf(checks, s).Pending?);
    SelectNonEmpty(policy, s => IsHardFailure(policy, checks, s));
    SelectNonEmpty(policy, s => IsSoftFailure(policy, checks, s));
    SelectNonEmpty(policy, s => StatusOf(checks, s).NeedsReview?);
    DoubtIsEither(policy, checks);
  }

  /** The verdict, as a case split over the checks rather than over the code's lists. */
  lemma DecideMeaning(
    policy: FlowPolicy, thresholds: Thresholds, checks: map<Step, CheckStatus>, internal: Internal)
    ensures
      var d := Decide(policy, thresholds, checks, internal);
      var score := Score(policy, checks, internal);
      var settled := !HasHardFailure(policy, checks) && !HasPending(policy, checks) && !HasDoubt(policy, checks);
      && (d.completed <==> !d.status.InProgress?)
      && (d.status.InProgress? <==> !HasHardFailure(policy, checks) && HasPending(policy, checks))
      && (d.status.Rejected? <==> HasHardFailure(policy, checks) || (settled && score < thresholds.review))
      && (d.status.Verified? <==> settled && score >= thresholds.review && score >= thresholds.accept)
      && (d.status.InProgress? || d.status.Rejected? || d.status.InReview? || d.status.Verified?)
      && (LowConfidence in d.reasons <==> settled && score < thresholds.review)
  {
    ListsMeaning(policy, checks);
  }

  /** VERIFIED means: every required step passed or was skipped, and the score reaches accept. */
  lemma VerifiedExactly(
    policy: FlowPolicy, thresholds: Thresholds, checks: map<Step, CheckStatus>, internal: Internal)
    requires thresholds.accept >= thresholds.review
    ensures Decide(policy, thresholds, checks, internal).status.Verified? <==>
            && (forall s :: s in policy.steps && !Hidden(s) ==>
                              StatusOf(checks, s).Passed? || StatusOf(checks, s).Skipped?)
            && Score(policy, checks, internal) >= thresholds.accept
  {
    DecideMeaning(policy, thresholds, checks, internal);
    if HasHardFailure(policy, checks) {
      var s :| s in policy.steps && !Hidden(s) && IsHardFailure(policy, checks, s);
    }
    if HasPending(policy, checks) {
      var s :| s in policy.steps && !Hidden(s) && StatusOf(checks, s).Pending?;
    }
    if HasDoubt(policy, checks) {
      var s :| s in policy.steps && !Hidden(s)
               && (StatusOf(checks, s).NeedsReview? || IsSoftFailure(policy, checks, s));
    }
  }

  // ---- Only decidable steps matter ------------------------------------------

  ghost predicate SameFor(
    policy: FlowPolicy, c1: map<Step, CheckStatus>, i1: Internal, c2: map<Step, CheckStatus>, i2: Internal)
  {
    forall s :: s in policy.steps && !Hidden(s) ==>
                  && StatusOf(c1, s) == StatusOf(c2, s)
                  && (s in i1.steps <==> s in i2.steps)
                  && (s in i1.steps ==> i1.steps[s] == i2.steps[s])
  }

  lemma {:induction false} SelectSame(steps: seq<Step>, f: Step -> bool, g: Step -> bool)
    requires forall s :: s in steps ==> f(s) == g(s)
    ensures Select(steps, f) == Select(steps, g)
  {
    if steps != [] {
      SelectSame(steps[..|steps| - 1], f, g);
    }
  }

  lemma {:induction false} TallySame(
    steps: seq<Step>, c1: map<Step, CheckStatus>, i1: Internal, c2: map<Step, CheckStatus>, i2: Internal)
    requires forall s :: s in steps ==>
                           && StatusOf(c1, s) == StatusOf(c2, s)
                           && (s in i1.steps <==> s in i2.steps)
                           && (s in i1.steps ==> i1.steps[s] == i2.steps[s])
    ensures TallyOf(steps, c1, i1) == TallyOf(steps, c2, i2)
  {
    if steps != [] {
      TallySame(steps[..|steps| - 1], c1, i1, c2, i2);
      assert steps[|steps| - 1] in steps;
    }
  }

  /** `decide` reads nothing but the decidable steps of the flow. */
  lemma DecideReadsOnlyDecidableSteps(
    policy: FlowPolicy, thresholds: Thresholds,
    c1: map<Step, CheckStatus>, i1: Internal, c2: map<Step, CheckStatus>, i2: Internal)
    requires SameFor(policy, c1, i1, c2, i2)
    ensures Decide(policy, thresholds, c1, i1) == Decide(policy, thresholds, c2, i2)
  {
    var required := DecidableSteps(policy);
    SelectSame(required, s => StatusOf(c1, s).Pending?, s => StatusOf(c2, s).Pending?);
    SelectSame(required, s => IsHardFailure(policy, c1, s), s => IsHardFailure(policy, c2, s));
    SelectSame(required, s => IsSoftFailure(policy, c1, s), s => IsSoftFailure(policy, c2, s));
    SelectSame(required, s => StatusOf(c1, s).NeedsReview?, s => StatusOf(c2, s).NeedsReview?);
    TallySame(required, c1, i1, c2, i2);
  }

  // ---- The score ------------------------------------------------------------

  lemma RoundMonotone(x: real, y: real)
    requires x <= y
    ensures RoundHalfEven(x) <= RoundHalfEven(y)
  {
  }

  lemma Round2Monotone(x: real, y: real)
    requires x <= y
    ensures Round2(x) <= Round2(y)
  {
    RoundMonotone(x * 100.0, y * 100.0);
  }

  lemma ScaleMonotone(c: real, d: real, w: real)
    requires c <= d && 0.0 <= w
    ensures c * w <= d * w
  {
  }

  lemma DivideMonotone(a: real, b: real, t: real)
    requires a <= b && t > 0.0
    ensures a / t <= b / t
  {
  }

  lemma ShareMonotone(step: Step, status: CheckStatus, low: Internal, high: Internal)
    requires StepConfidence(step, status, low) <= StepConfidence(step, status, high)
    ensures Share(ContributionOf(step, status, low)) <= Share(ContributionOf(step, status, high))
  {
    ScaleMonotone(StepConfidence(step, status, low), StepConfidence(step, status, high), Weight(step));
  }

  /** Raising confidences never lowers the running sums, and leaves the total alone. */
  lemma {:induction false} TallyMonotone(
    steps: seq<Step>, checks: map<Step, CheckStatus>, low: Internal, high: Internal)
    requires forall s :: s in steps ==>
                           StepConfidence(s, StatusOf(checks, s), low) <= StepConfidence(s, StatusOf(checks, s), high)
    ensures TallyOf(steps, checks, low).total == TallyOf(steps, checks, high).total >= 0.0
    ensures TallyOf(steps, checks, low).weighted <= TallyOf(steps, checks, high).weighted
  {
    if steps != [] {
      var last := steps[|steps| - 1];
      assert last in steps;
      TallyMonotone(steps[..|steps| - 1], checks, low, high);
      ShareMonotone(last, StatusOf(checks, last), low, high);
    }
  }

  /** The score is monotone in every confidence. */
  lemma ScoreMonotone(policy: FlowPolicy, checks: map<Step, CheckStatus>, low: Internal, high: Internal)
    requires forall s :: s in policy.steps && !Hidden(s) ==>
                           StepConfidence(s, StatusOf(checks, s), low) <= StepConfidence(s, StatusOf(checks, s), high)
    ensures Score(policy, checks, low) <= Score(policy, checks, high)
  {
    var steps := DecidableSteps(policy);
    TallyMonotone(steps, checks, low, high);
    var a, b := TallyOf(steps, checks, low), TallyOf(steps, checks, high);
    if a.total != 0.0 {
      DivideMonotone(a.weighted, b.weighted, a.total);
      Round2Monotone(a.weighted / a.total * 100.0, b.weighted / b.total * 100.0);
    }
  }

  function SumWeights(parts: seq<Contribution>): real {
    if parts == [] then 0.0 else SumWeights(parts[..|parts| - 1]) + parts[|parts| - 1].weight
  }

  function SumShares(parts: seq<Contribution>): real {
    if parts == [] then 0.0
    else SumShares(parts[..|parts| - 1]) + Share(parts[|parts| - 1])
  }

  /** A contribution is what a settled step of the flow brings in. */
  predicate BroughtBy(part: Contribution, step: Step, checks: map<Step, CheckStatus>, internal: Internal) {
    && Counts(StatusOf(checks, step))
    && part.step == step && part.status == StatusOf(checks, step) && part.weight == Weight(step)
    && part.confidence == StepConfidence(step, StatusOf(checks, step), internal)
  }

  lemma {:induction false} SumsOfAppend(parts: seq<Contribution>, part: Contribution)
    ensures SumWeights(parts + [part]) == SumWeights(parts) + part.weight
    ensures SumShares(parts + [part]) == SumShares(parts) + Share(part)
  {
    assert (parts + [part])[..|parts|] == parts;
  }

  ghost predicate AddsUp(t: Tally) {
    t.total == SumWeights(t.contributions) && t.weighted == SumShares(t.contributions)
  }

  lemma GrowAddsUp(t: Tally, part: Contribution)
    requires AddsUp(t)
    ensures AddsUp(Grow(t, part))
  {
    SumsOfAppend(t.contributions, part);
  }

  lemma AddStepBrings(t: Tally, step: Step, checks: map<Step, CheckStatus>, internal: Internal, part: Contribution)
    requires part in AddStep(t, step, checks, internal).contributions
    ensures part in t.contributions || BroughtBy(part, step, checks, internal)
  {
  }

  /** The reported contributions explain the score: they come from the steps and add up to both sums. */
  lemma {:induction false} ContributionsExplainScore(
    steps: seq<Step>, checks: map<Step, CheckStatus>, internal: Internal)
    ensures AddsUp(TallyOf(steps, checks, internal))
    ensures forall part :: part in TallyOf(steps, checks, internal).contributions ==>
                             part.step in steps && BroughtBy(part, part.step, checks, internal)
  {
    if steps != [] {
      var n := |steps| - 1;
      var before := TallyOf(steps[..n], checks, internal);
      ContributionsExplainScore(steps[..n], checks, internal);
      GrowAddsUp(before, ContributionOf(steps[n], StatusOf(checks, steps[n]), internal));
      forall part | part in TallyOf(steps, checks, internal).contributions
        ensures part.step in steps && BroughtBy(part, part.step, checks, internal)
      {
        AddStepBrings(before, steps[n], checks, internal, part);
      }
    }
  }

  lemma Distribute(k: real, a: real, b: real)
    ensures k * (a + b) == k * a + k * b
  {
  }

  /** A lower bound on every confidence is one on the weighted average. */
  lemma {:induction false} SharesAbove(parts: seq<Contribution>, lo: real)
    requires forall part :: part in parts ==> lo <= part.confidence && part.weight > 0.0
    ensures lo * SumWeights(parts) <= SumShares(parts) && SumWeights(parts) >= 0.0
  {
    if parts != [] {
      var n := |parts| - 1;
      SharesAbove(parts[..n], lo);
      Distribute(lo, SumWeights(parts[..n]), parts[n].weight);
      ScaleMonotone(lo, parts[n].confidence, parts[n].weight);
    }
  }

  /** An upper bound likewise. */
  lemma {:induction false} SharesBelow(parts: seq<Contribution>, hi: real)
    requires forall part :: part in parts ==> part.confidence <= hi && part.weight > 0.0
    ensures SumShares(parts) <= hi * SumWeights(parts)
  {
    if parts != [] {
      var n := |parts| - 1;
      SharesBelow(parts[..n], hi);
      Distribute(hi, SumWeights(parts[..n]), parts[n].weight);
      ScaleMonotone(parts[n].confidence, hi, parts[n].weight);
    }
  }

  lemma RatioInRange(weighted: real, total: real)
    requires 0.0 <= weighted <= total && total > 0.0
    ensures 0.0 <= weighted / total * 100.0 <= 100.0
  {
    DivideMonotone(0.0, weighted, total);
    DivideMonotone(weighted, total, total);
  }

  lemma RoundInRange(x: real)
    requires 0.0 <= x <= 100.0
    ensures 0.0 <= Round2(x) <= 100.0
  {
    Round2Monotone(0.0, x);
    Round2Monotone(x, 100.0);
  }

  /** With confidences in [0, 1] the score lies in [0, 100]. */
  lemma ScoreInRange(policy: FlowPolicy, checks: map<Step, CheckStatus>, internal: Internal)
    requires forall s :: s in policy.steps && !Hidden(s) ==>
                           0.0 <= StepConfidence(s, StatusOf(checks, s), internal) <= 1.0
    ensures 0.0 <= Score(policy, checks, internal) <= 100.0
  {
    var steps := DecidableSteps(policy);
    var t := TallyOf(steps, checks, internal);
    ContributionsExplainScore(steps, checks, internal);
    SharesAbove(t.contributions, 0.0);
    SharesBelow(t.contributions, 1.0);
    if t.total != 0.0 {
      RatioInRange(t.weighted, t.total);
      RoundInRange(t.weighted / t.total * 100.0);
    }
  }
}
