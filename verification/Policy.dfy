/** Flow policies (app/engines/policy.py): which checks a tenant's flow requires. */
module Policy {
  import opened Enums

  datatype FlowPolicy = FlowPolicy(name: string, steps: seq<Step>, reviewOnFailure: set<Step>) {
    predicate Requires(step: Step) { step in steps }
  }

  const TRAVEL_INSURANCE := FlowPolicy(
    "TRAVEL_INSURANCE",
    [Document, Ocr, DocumentVerification, Selfie, Liveness, FaceMatch, Otp],
    {DocumentVerification, FaceMatch})

  const BANK_ACCOUNT := FlowPolicy(
    "BANK_ACCOUNT",
    [Document, Ocr, DocumentVerification, Selfie, Liveness, FaceMatch, Otp],
    {FaceMatch})

  const CITIZEN := FlowPolicy(
    "CITIZEN",
    [Document, Ocr, DocumentVerification, Otp],
    {DocumentVerification})

  const FLOWS := {TRAVEL_INSURANCE, BANK_ACCOUNT, CITIZEN}

  /** Steps another engine handles: they are not reported on their own. */
  predicate Hidden(step: Step) {
    step.Ocr? || step.Selfie? || step.Document?
  }

  function Select(steps: seq<Step>, keep: Step -> bool): (kept: seq<Step>)
    ensures forall s :: s in kept <==> s in steps && keep(s)
  {
    if steps == [] then []
    else Select(steps[..|steps| - 1], keep) + (if keep(steps[|steps| - 1]) then [steps[|steps| - 1]] else [])
  }

  function DecidableSteps(policy: FlowPolicy): (steps: seq<Step>)
    ensures forall s :: s in steps <==> s in policy.steps && !Hidden(s)
  {
    Select(policy.steps, s => !Hidden(s))
  }

  lemma {:induction false} SelectConcat(a: seq<Step>, b: seq<Step>, keep: Step -> bool)
    ensures Select(a + b, keep) == Select(a, keep) + Select(b, keep)
    decreases |b|
  {
    if b == [] {
      assert a + b == a;
    } else {
      SelectConcat(a, b[..|b| - 1], keep);
      assert (a + b)[..|a + b| - 1] == a + b[..|b| - 1];
    }
  }

  /**
   Order and multiplicity: the i-th step of a flow, if decidable, is the decidable
   step with as many decidable ones before it; nothing else is in the list.
   */
  lemma DecidableStepsInOrder(policy: FlowPolicy, i: nat)
    requires i < |policy.steps|
    ensures var before := Select(policy.steps[..i], s => !Hidden(s));
            var upTo := Select(policy.steps[..i + 1], s => !Hidden(s));
            && |upTo| == |before| + (if Hidden(policy.steps[i]) then 0 else 1)
            && upTo <= DecidableSteps(policy)
            && (!Hidden(policy.steps[i]) ==> DecidableSteps(policy)[|before|] == policy.steps[i])
  {
    var keep := (s: Step) => !Hidden(s);
    var steps := policy.steps;
    assert steps[..i + 1][..i] == steps[..i];
    assert steps == steps[..i + 1] + steps[i + 1..];
    SelectConcat(steps[..i + 1], steps[i + 1..], keep);
  }

  /** `get_policy`; `None` is the UnknownFlowError. */
  function PolicyOf(flow: string): Option<FlowPolicy> {
    if flow == TRAVEL_INSURANCE.name then Some(TRAVEL_INSURANCE)
    else if flow == BANK_ACCOUNT.name then Some(BANK_ACCOUNT)
    else if flow == CITIZEN.name then Some(CITIZEN)
    else None
  }

  /** A flow with nothing to decide would reject every session at once. */
  predicate Decidable(policy: FlowPolicy) {
    exists s :: s in policy.steps && !Hidden(s)
  }

  ghost predicate Shows(steps: seq<Step>, visible: seq<Step>) {
    Select(steps, s => !Hidden(s)) == visible
  }

  lemma ShowsNext(steps: seq<Step>, visible: seq<Step>, longer: seq<Step>, shown: seq<Step>)
    requires Shows(steps, visible)
    requires longer != [] && steps == longer[..|longer| - 1]
    requires shown == visible + (if Hidden(longer[|steps|]) then [] else [longer[|steps|]])
    ensures Shows(longer, shown)
  {
  }

  lemma DocumentPrefix(p: seq<Step>)
    requires |p| >= 3 && p[0] == Document && p[1] == Ocr && p[2] == DocumentVerification
    ensures Shows(p[..3], [DocumentVerification])
  {
    ShowsNext([], [], p[..1], []);
    ShowsNext(p[..1], [], p[..2], []);
    ShowsNext(p[..2], [], p[..3], [DocumentVerification]);
  }

  lemma SelfiePrefix(p: seq<Step>)
    requires |p| >= 6 && p[3] == Selfie && p[4] == Liveness && p[5] == FaceMatch
    requires Shows(p[..3], [DocumentVerification])
    ensures Shows(p[..6], [DocumentVerification, Liveness, FaceMatch])
  {
    ShowsNext(p[..3], [DocumentVerification], p[..4], [DocumentVerification]);
    ShowsNext(p[..4], [DocumentVerification], p[..5], [DocumentVerification, Liveness]);
    ShowsNext(p[..5], [DocumentVerification, Liveness], p[..6], [DocumentVerification, Liveness, FaceMatch]);
  }

  lemma ShippedSteps(p: seq<Step>)
    requires p == CITIZEN.steps || p == TRAVEL_INSURANCE.steps
    ensures Shows(p, if |p| == 4 then [DocumentVerification, Otp]
                     else [DocumentVerification, Liveness, FaceMatch, Otp])
  {
    DocumentPrefix(p);
    if |p| == 4 {
      ShowsNext(p[..3], [DocumentVerification], p, [DocumentVerification, Otp]);
    } else {
      SelfiePrefix(p);
      ShowsNext(p[..6], [DocumentVerification, Liveness, FaceMatch],
                p, [DocumentVerification, Liveness, FaceMatch, Otp]);
    }
  }

  lemma ShippedFlowsAreDecidable(policy: FlowPolicy)
    requires policy in FLOWS
    ensures Decidable(policy)
    ensures DecidableSteps(policy) ==
            if policy == CITIZEN then [DocumentVerification, Otp]
            else [DocumentVerification, Liveness, FaceMatch, Otp]
  {
    assert DocumentVerification in policy.steps && !Hidden(DocumentVerification);
    ShippedSteps(policy.steps);
  }
}
