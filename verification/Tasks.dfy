/**
 Worker tasks (app/workers/tasks.py) and the engines they call
 (app/engines/identity.py, app/engines/biometrics.py).  What OCR, liveness and
 face matching measured is an input; what the platform does with it is modelled.
 */
module Tasks {
  import opened Enums
  import opened Policy
  import opened Decision
  import opened Audit
  import opened Kyc

  const DOCUMENT_REVIEW_THRESHOLD := 0.60
  const LIVENESS_THRESHOLD := 0.70
  const FACE_MATCH_THRESHOLD := 0.80

  type Fields = map<string, string>

  /** What the OCR provider reported about a document. */
  datatype Reading = Reading(authentic: bool, confidence: real, ocrConfidence: real, expired: bool, fields: Fields)

  /** What the face provider reported; `matching` is `None` when there is no document image. */
  datatype Capture = Capture(liveness: real, matching: Option<real>)

  function DocumentStatus(r: Reading): CheckStatus {
    if r.expired || !r.authentic then Failed
    else if r.confidence < DOCUMENT_REVIEW_THRESHOLD then NeedsReview
    else Passed
  }

  function DocumentOp(r: Reading, now: int): Op {
    SetCheck(DocumentVerification, DocumentStatus(r), Some(StepData(Some(r.confidence), Some(r.ocrConfidence), None)), now)
  }

  function DocumentOps(r: Reading, now: int): seq<Op> {
    [DocumentOp(r, now)]
  }

  function LivenessStatus(c: Capture): CheckStatus {
    if c.liveness >= LIVENESS_THRESHOLD then Passed else Failed
  }

  /** A spoofed capture is never matched; without a document there is nothing to match. */
  function FaceMatchStatus(c: Capture): CheckStatus {
    if LivenessStatus(c).Passed? && c.matching.Some? && c.matching.value >= FACE_MATCH_THRESHOLD then Passed else Failed
  }

  function FaceMatchData(c: Capture): StepData {
    if LivenessStatus(c).Passed? then StepData(None, None, c.matching) else NO_DATA
  }

  function LivenessOp(c: Capture, now: int): Op {
    SetCheck(Liveness, LivenessStatus(c), Some(StepData(None, None, Some(c.liveness))), now)
  }

  function FaceMatchOp(c: Capture, now: int): Op {
    SetCheck(FaceMatch, FaceMatchStatus(c), Some(FaceMatchData(c)), now)
  }

  function SelfieOps(policy: FlowPolicy, c: Capture, now: int): seq<Op> {
    (if policy.Requires(Liveness) then [LivenessOp(c, now)] else [])
    + (if policy.Requires(FaceMatch) then [FaceMatchOp(c, now)] else [])
  }

  /** The failure hook of `_processing_failed`: pending checks go to a human. */
  function ReviewOps(row: Row, steps: seq<Step>, now: int): seq<Op> {
    if steps == [] then []
    else
      ReviewOps(row, steps[..|steps| - 1], now)
      + (if IsPending(row, steps[|steps| - 1])
         then [SetCheck(steps[|steps| - 1], NeedsReview, Some(NO_DATA), now)] else [])
  }

  datatype Task =
    | DocumentTask(reading: Reading, now: int)
    | SelfieTask(capture: Capture, now: int)
    | FailureHook(steps: seq<Step>, now: int)
    | Other(op: Op)

  const DOCUMENT_STEPS := [DocumentVerification]
  const SELFIE_STEPS := [Liveness, FaceMatch]

  /** The row operations one committed execution performs; an execution that rolled back performs none. */
  function TaskOps(policy: FlowPolicy, row: Row, task: Task): seq<Op> {
    match task
    case DocumentTask(reading, now) =>
      if IsPending(row, DocumentVerification) then DocumentOps(reading, now) + [Evaluate(now)] else []
    case SelfieTask(capture, now) =>
      if IsPending(row, Liveness) then SelfieOps(policy, capture, now) + [Evaluate(now)] else []
    case FailureHook(steps, now) =>
      if Terminal(row.status) then [] else ReviewOps(row, steps, now) + [Evaluate(now)]
    case Other(op) => [op]
  }

  /** A committed execution; `seen` counts the executions committed when it read the session, before taking the lock. */
  datatype Execution = Execution(task: Task, seen: nat)

  /** The operations of all executions in commit order, each decided on the row that the execution had read. */
  function TaskLog(cfg: Config, s: Serial, runs: seq<Execution>): seq<Op>
    decreases |runs|, 0
  {
    if runs == [] then []
    else
      var n := |runs| - 1;
      TaskLog(cfg, s, runs[..n]) + TaskOps(cfg.policy, SeenRow(cfg, s, runs[..n], runs[n].seen), runs[n].task)
  }

  /** The row as the first `seen` executions left it. */
  function SeenRow(cfg: Config, s: Serial, runs: seq<Execution>, seen: nat): Row
    decreases |runs|, 1
  {
    RunOps(cfg, s, TaskLog(cfg, s, if seen < |runs| then runs[..seen] else runs)).row
  }

  ghost predicate AllDispatched(runs: seq<Execution>) {
    forall k :: 0 <= k < |runs| ==> Dispatched(runs[k].task)
  }

  // ---- At-least-once delivery, applied once ---------------------------------

  function Writes(ops: seq<Op>, step: Step): nat {
    if ops == [] then 0
    else
      Writes(ops[..|ops| - 1], step)
      + (if ops[|ops| - 1].SetCheck? && ops[|ops| - 1].step == step then 1 else 0)
  }

  lemma {:induction false} WritesConcat(a: seq<Op>, b: seq<Op>, step: Step)
    ensures Writes(a + b, step) == Writes(a, step) + Writes(b, step)
    decreases |b|
  {
    if b == [] {
      assert a + b == a;
    } else {
      WritesConcat(a, b[..|b| - 1], step);
      assert (a + b)[..|a + b| - 1] == a + b[..|b| - 1];
    }
  }

  predicate Processed(step: Step) {
    step.DocumentVerification? || step.Liveness? || step.FaceMatch?
  }

  /** Tasks as the platform dispatches them: hooks for one of the two engines, other writers elsewhere. */
  ghost predicate Dispatched(task: Task) {
    && (task.FailureHook? ==> task.steps == DOCUMENT_STEPS || task.steps == SELFIE_STEPS)
    && (task.Other? && task.op.SetCheck? ==> !Processed(task.op.step))
  }

  /** Each processed step has been written exactly when it is no longer pending. */
  ghost predicate WrittenOnce(ops: seq<Op>, row: Row) {
    forall step :: Processed(step) ==> Writes(ops, step) == if IsPending(row, step) then 0 else 1
  }

  lemma {:induction false} OneOpWrites(op: Op, step: Step)
    ensures Writes([op], step) == if op.SetCheck? && op.step == step then 1 else 0
    ensures LastWrite([op], step) == if op.SetCheck? && op.step == step then Some(op.status) else None
  {
    assert [op][..0] == [];
  }

  /** A step is written at most once, only while pending, and then leaves PENDING. */
  ghost predicate WritesPendingOnce(row: Row, ops: seq<Op>, step: Step) {
    && Writes(ops, step) <= 1
    && (Writes(ops, step) == 1 ==> IsPending(row, step))
    && (Writes(ops, step) == 1 <==> LastWrite(ops, step).Some?)
    && (LastWrite(ops, step).Some? ==> !LastWrite(ops, step).value.Pending?)
  }

  lemma NothingWrites(row: Row, step: Step)
    ensures WritesPendingOnce(row, [], step)
  {
  }

  lemma OtherWrites(row: Row, op: Op, step: Step)
    requires op.SetCheck? ==> op.step != step
    ensures WritesPendingOnce(row, [op], step)
  {
    OneOpWrites(op, step);
  }

  /** How often one execution writes a processed step. */
  lemma TaskWrites(policy: FlowPolicy, row: Row, task: Task, step: Step)
    requires Dispatched(task) && Processed(step)
    requires policy.Requires(FaceMatch) ==> policy.Requires(Liveness)
    requires task.SelfieTask? && policy.Requires(FaceMatch) && IsPending(row, Liveness) ==> IsPending(row, FaceMatch)
    ensures WritesPendingOnce(row, TaskOps(policy, row, task), step)
  {
    NothingWrites(row, step);
    match task
    case DocumentTask(reading, now) => DocumentShape(reading, now, step);
    case SelfieTask(capture, now) => SelfieShape(policy, capture, now, step);
    case FailureHook(steps, now) => HookShape(row, steps, now, step);
    case Other(op) => OtherWrites(row, op, step);
  }

  lemma {:induction false} SnocEvaluate(ops: seq<Op>, now: int, step: Step)
    ensures Writes(ops + [Evaluate(now)], step) == Writes(ops, step)
    ensures LastWrite(ops + [Evaluate(now)], step) == LastWrite(ops, step)
  {
    assert (ops + [Evaluate(now)])[..|ops|] == ops;
  }

  lemma {:induction false} DocumentShape(r: Reading, now: int, step: Step)
    ensures var ops := DocumentOps(r, now) + [Evaluate(now)];
            && Writes(ops, step) == (if step.DocumentVerification? then 1 else 0)
            && LastWrite(ops, step) == if step.DocumentVerification? then Some(DocumentStatus(r)) else None
  {
    SnocEvaluate(DocumentOps(r, now), now, step);
    assert DocumentOps(r, now)[..0] == [];
  }

  lemma {:induction false} SelfieShape(policy: FlowPolicy, c: Capture, now: int, step: Step)
    ensures var ops := SelfieOps(policy, c, now) + [Evaluate(now)];
            && Writes(ops, step) == (if (step.Liveness? || step.FaceMatch?) && policy.Requires(step) then 1 else 0)
            && LastWrite(ops, step) ==
               if step.Liveness? && policy.Requires(Liveness) then Some(LivenessStatus(c))
               else if step.FaceMatch? && policy.Requires(FaceMatch) then Some(FaceMatchStatus(c))
               else None
  {
    SnocEvaluate(SelfieOps(policy, c, now), now, step);
    var live, face := LivenessOp(c, now), FaceMatchOp(c, now);
    var first := if policy.Requires(Liveness) then [live] else [];
    var second := if policy.Requires(FaceMatch) then [face] else [];
    OneOpWrites(live, step);
    OneOpWrites(face, step);
    WritesConcat(first, second, step);
    LastWriteConcat(first, second, step);
  }

  lemma InMore<T>(xs: seq<T>, x: T, y: T)
    ensures y in xs + [x] <==> y in xs || y == x
  {
  }

  /** One more step for the hook: written if pending, and the last to be written. */
  lemma {:induction false} HookStep(ops: seq<Op>, row: Row, reviewed: Step, now: int, step: Step)
    ensures var more := if IsPending(row, reviewed) then [SetCheck(reviewed, NeedsReview, Some(NO_DATA), now)] else [];
            && Writes(ops + more, step)
               == Writes(ops, step) + (if IsPending(row, reviewed) && reviewed == step then 1 else 0)
            && LastWrite(ops + more, step)
               == if IsPending(row, reviewed) && reviewed == step then Some(NeedsReview) else LastWrite(ops, step)
  {
    var op := SetCheck(reviewed, NeedsReview, Some(NO_DATA), now);
    OneOpWrites(op, step);
    WritesConcat(ops, [op], step);
    LastWriteConcat(ops, [op], step);
    assert ops + [] == ops;
  }

  lemma {:induction false} HookWrites(row: Row, steps: seq<Step>, now: int, step: Step)
    requires forall i, j :: 0 <= i < j < |steps| ==> steps[i] != steps[j]
    ensures Writes(ReviewOps(row, steps, now), step) == if step in steps && IsPending(row, step) then 1 else 0
  {
    if steps != [] {
      var n := |steps| - 1;
      HookWrites(row, steps[..n], now, step);
      InMore(steps[..n], steps[n], step);
      assert steps == steps[..n] + [steps[n]];
      HookStep(ReviewOps(row, steps[..n], now), row, steps[n], now, step);
    }
  }

  lemma {:induction false} HookLastWrite(row: Row, steps: seq<Step>, now: int, step: Step)
    ensures LastWrite(ReviewOps(row, steps, now), step)
         == if step in steps && IsPending(row, step) then Some(NeedsReview) else None
  {
    if steps != [] {
      var n := |steps| - 1;
      HookLastWrite(row, steps[..n], now, step);
      InMore(steps[..n], steps[n], step);
      assert steps == steps[..n] + [steps[n]];
      HookStep(ReviewOps(row, steps[..n], now), row, steps[n], now, step);
    }
  }

  lemma {:induction false} HookShape(row: Row, steps: seq<Step>, now: int, step: Step)
    requires forall i, j :: 0 <= i < j < |steps| ==> steps[i] != steps[j]
    ensures var ops := ReviewOps(row, steps, now) + [Evaluate(now)];
            && Writes(ops, step) == (if step in steps && IsPending(row, step) then 1 else 0)
            && LastWrite(ops, step) == (if step in steps && IsPending(row, step) then Some(NeedsReview) else None)
  {
    HookWrites(row, steps, now, step);
    HookLastWrite(row, steps, now, step);
    SnocEvaluate(ReviewOps(row, steps, now), now, step);
  }

  lemma {:induction false} LastWriteConcat(a: seq<Op>, b: seq<Op>, step: Step)
    ensures LastWrite(a + b, step) == if LastWrite(b, step).Some? then LastWrite(b, step) else LastWrite(a, step)
    decreases |b|
  {
    if b == [] {
      assert a + b == a;
    } else {
      LastWriteConcat(a, b[..|b| - 1], step);
      assert (a + b)[..|a + b| - 1] == a + b[..|b| - 1];
    }
  }

  /** All processed steps start pending, and FACE_MATCH never stays behind LIVENESS. */
  ghost predicate InStep(policy: FlowPolicy, row: Row) {
    policy.Requires(FaceMatch) ==> (IsPending(row, Liveness) <==> IsPending(row, FaceMatch))
  }

  /** What the platform guarantees at the start: nothing processed yet, and selfies paired with liveness. */
  ghost predicate Untouched(cfg: Config, s: Serial) {
    && (cfg.policy.Requires(FaceMatch) ==> cfg.policy.Requires(Liveness))
    && (forall step :: Processed(step) ==> IsPending(s.row, step))
  }

  /** LIVENESS and FACE_MATCH are written together. */
  lemma PairWritten(policy: FlowPolicy, row: Row, task: Task)
    requires policy.Requires(FaceMatch) ==> policy.Requires(Liveness)
    requires InStep(policy, row) && Dispatched(task) && policy.Requires(FaceMatch)
    ensures var ops := TaskOps(policy, row, task);
            LastWrite(ops, Liveness).None? <==> LastWrite(ops, FaceMatch).None?
  {
    match task
    case DocumentTask(reading, now) =>
      DocumentShape(reading, now, Liveness);
      DocumentShape(reading, now, FaceMatch);
    case SelfieTask(capture, now) =>
      SelfieShape(policy, capture, now, Liveness);
      SelfieShape(policy, capture, now, FaceMatch);
    case FailureHook(steps, now) =>
      HookShape(row, steps, now, Liveness);
      HookShape(row, steps, now, FaceMatch);
    case Other(op) =>
      OneOpWrites(op, Liveness);
      OneOpWrites(op, FaceMatch);
  }

  /** A processed check is pending exactly while nothing in the log has written it. */
  ghost predicate PendingMatches(row: Row, log: seq<Op>) {
    forall step :: Processed(step) ==> (IsPending(row, step) <==> Writes(log, step) == 0)
  }

  /** One more execution, decided on `seen`, applied to what `log` led to. */
  lemma {:induction false} ExecutionKeepsPending(cfg: Config, s: Serial, log: seq<Op>, seen: Row, task: Task)
    requires cfg.policy.Requires(FaceMatch) ==> cfg.policy.Requires(Liveness)
    requires Dispatched(task) && InStep(cfg.policy, seen)
    requires var row := RunOps(cfg, s, log).row;
             InStep(cfg.policy, row) && PendingMatches(row, log)
    ensures var all := log + TaskOps(cfg.policy, seen, task);
            var row := RunOps(cfg, s, all).row;
            InStep(cfg.policy, row) && PendingMatches(row, all)
  {
    var ops := TaskOps(cfg.policy, seen, task);
    var before := RunOps(cfg, s, log);
    RunConcat(cfg, s, log, ops);
    forall step | Processed(step)
      ensures Writes(log + ops, step) == 0 <==> IsPending(RunOps(cfg, s, log + ops).row, step)
      ensures IsPending(RunOps(cfg, s, log + ops).row, step) <==> IsPending(before.row, step) && LastWrite(ops, step).None?
    {
      TaskWrites(cfg.policy, seen, task, step);
      WritesConcat(log, ops, step);
      CheckIsLastWrite(cfg, before, ops, step);
    }
    if cfg.policy.Requires(FaceMatch) {
      PairWritten(cfg.policy, seen, task);
    }
  }

  /** However executions overlap, a processed check is pending exactly while no committed operation has written it. */
  lemma {:induction false} PendingUntilWritten(cfg: Config, s: Serial, runs: seq<Execution>)
    requires Untouched(cfg, s) && AllDispatched(runs)
    ensures var log := TaskLog(cfg, s, runs);
            var row := RunOps(cfg, s, log).row;
            InStep(cfg.policy, row) && PendingMatches(row, log)
    decreases |runs|
  {
    if runs != [] {
      var n := |runs| - 1;
      var seen := runs[n].seen;
      PendingUntilWritten(cfg, s, runs[..n]);
      PendingUntilWritten(cfg, s, if seen < n then runs[..n][..seen] else runs[..n]);
      ExecutionKeepsPending(cfg, s, TaskLog(cfg, s, runs[..n]), SeenRow(cfg, s, runs[..n], seen), runs[n].task);
    }
  }

  /** The execution writes the step, unless it finds it decided. */
  ghost predicate Handles(policy: FlowPolicy, row: Row, task: Task, step: Step) {
    match task
    case DocumentTask(_, _) => step.DocumentVerification?
    case SelfieTask(_, _) => (step.Liveness? || step.FaceMatch?) && policy.Requires(step)
    case FailureHook(steps, _) => step in steps && !Terminal(row.status)
    case Other(_) => false
  }

  lemma {:induction false} WritesIfPending(policy: FlowPolicy, row: Row, task: Task, step: Step)
    requires policy.Requires(FaceMatch) ==> policy.Requires(Liveness)
    requires Dispatched(task) && Processed(step) && InStep(policy, row)
    ensures Writes(TaskOps(policy, row, task), step)
         == if Handles(policy, row, task, step) && IsPending(row, step) then 1 else 0
  {
    match task
    case DocumentTask(reading, now) => DocumentShape(reading, now, step);
    case SelfieTask(capture, now) => SelfieShape(policy, capture, now, step);
    case FailureHook(steps, now) => HookShape(row, steps, now, step);
    case Other(op) => OneOpWrites(op, step);
  }

  /** Writes of the step by the first `n` executions. */
  function WritesBy(cfg: Config, s: Serial, runs: seq<Execution>, n: nat, step: Step): nat
    requires n <= |runs|
  {
    Writes(TaskLog(cfg, s, runs[..n]), step)
  }

  /** The k-th execution handles the step, as far as the row it had read tells. */
  ghost predicate HandlesAt(cfg: Config, s: Serial, runs: seq<Execution>, k: nat, step: Step)
    requires k < |runs|
  {
    Handles(cfg.policy, SeenRow(cfg, s, runs[..k], runs[k].seen), runs[k].task, step)
  }

  ghost predicate WritesAt(cfg: Config, s: Serial, runs: seq<Execution>, k: nat, step: Step)
    requires k < |runs|
  {
    WritesBy(cfg, s, runs, k + 1, step) > WritesBy(cfg, s, runs, k, step)
  }

  function Least(a: nat, b: nat): nat {
    if a < b then a else b
  }

  /** An execution that handles a step writes it exactly if no execution that it had seen has. */
  lemma WritesExactly(cfg: Config, s: Serial, runs: seq<Execution>, k: nat, step: Step)
    requires Untouched(cfg, s) && AllDispatched(runs) && k < |runs| && Processed(step)
    ensures var none := WritesBy(cfg, s, runs, Least(runs[k].seen, k), step) == 0;
            WritesBy(cfg, s, runs, k + 1, step)
            == WritesBy(cfg, s, runs, k, step) + (if HandlesAt(cfg, s, runs, k, step) && none then 1 else 0)
  {
    var seen := runs[k].seen;
    var row := SeenRow(cfg, s, runs[..k], seen);
    assert runs[..k + 1][..k] == runs[..k];
    assert (if seen < k then runs[..k][..seen] else runs[..k]) == runs[..Least(seen, k)];
    PendingUntilWritten(cfg, s, runs[..Least(seen, k)]);
    WritesIfPending(cfg.policy, row, runs[k].task, step);
    WritesConcat(TaskLog(cfg, s, runs[..k]), TaskOps(cfg.policy, row, runs[k].task), step);
  }

  lemma {:induction false} WritesGrow(cfg: Config, s: Serial, runs: seq<Execution>, j: nat, k: nat, step: Step)
    requires Untouched(cfg, s) && AllDispatched(runs) && j <= k <= |runs| && Processed(step)
    ensures WritesBy(cfg, s, runs, j, step) <= WritesBy(cfg, s, runs, k, step)
    decreases k
  {
    if j < k {
      WritesGrow(cfg, s, runs, j, k - 1, step);
      WritesExactly(cfg, s, runs, k - 1, step);
    }
  }

  /** Every execution that handles the step had seen all earlier ones that wrote it. */
  ghost predicate WritersSeen(cfg: Config, s: Serial, runs: seq<Execution>, n: nat, step: Step)
    requires n <= |runs|
  {
    forall j, k :: 0 <= j < k < n && WritesAt(cfg, s, runs, j, step) && HandlesAt(cfg, s, runs, k, step) ==>
                     j < runs[k].seen
  }

  lemma NoWriteTwice(cfg: Config, s: Serial, runs: seq<Execution>, j: nat, k: nat, step: Step)
    requires Untouched(cfg, s) && AllDispatched(runs) && Processed(step) && j < k < |runs|
    requires WritesAt(cfg, s, runs, j, step) && HandlesAt(cfg, s, runs, k, step) && runs[k].seen <= j
    ensures WritesBy(cfg, s, runs, |runs|, step) > 1
  {
    WritesExactly(cfg, s, runs, k, step);
    WritesGrow(cfg, s, runs, Least(runs[k].seen, k), j, step);
    WritesGrow(cfg, s, runs, j + 1, k, step);
    WritesGrow(cfg, s, runs, k + 1, |runs|, step);
  }

  lemma UnseenWriterWritesTwice(cfg: Config, s: Serial, runs: seq<Execution>, step: Step)
    requires Untouched(cfg, s) && AllDispatched(runs) && Processed(step)
    requires !WritersSeen(cfg, s, runs, |runs|, step)
    ensures WritesBy(cfg, s, runs, |runs|, step) > 1
  {
    var j, k :| 0 <= j < k < |runs| && WritesAt(cfg, s, runs, j, step) && HandlesAt(cfg, s, runs, k, step)
                && runs[k].seen <= j;
    NoWriteTwice(cfg, s, runs, j, k, step);
  }

  lemma {:induction false} SeenWritersWriteOnce(cfg: Config, s: Serial, runs: seq<Execution>, n: nat, step: Step)
    requires Untouched(cfg, s) && AllDispatched(runs) && Processed(step) && n <= |runs|
    requires WritersSeen(cfg, s, runs, n, step)
    ensures WritesBy(cfg, s, runs, n, step) <= 1
    ensures WritesBy(cfg, s, runs, n, step) == 1 ==> exists j :: 0 <= j < n && WritesAt(cfg, s, runs, j, step)
    decreases n
  {
    if n > 0 {
      var k := n - 1;
      SeenWritersWriteOnce(cfg, s, runs, k, step);
      WritesExactly(cfg, s, runs, k, step);
      if WritesAt(cfg, s, runs, k, step) && WritesBy(cfg, s, runs, k, step) == 1 {
        var j :| 0 <= j < k && WritesAt(cfg, s, runs, j, step);
        WritesGrow(cfg, s, runs, j + 1, Least(runs[k].seen, k), step);
        assert false;
      }
    } else {
      assert runs[..0] == [];
    }
  }

  /**
   Duplicated, retried, re-queued and overlapping executions: a processed check is
   written at most once exactly if each execution that handles it had seen, when it
   read the session before locking, every earlier one that wrote it.
   */
  lemma {:induction false} AppliedOnceExactly(cfg: Config, s: Serial, runs: seq<Execution>, step: Step)
    requires Untouched(cfg, s) && AllDispatched(runs) && Processed(step)
    ensures Writes(TaskLog(cfg, s, runs), step) <= 1 <==> WritersSeen(cfg, s, runs, |runs|, step)
  {
    assert WritesBy(cfg, s, runs, |runs|, step) == Writes(TaskLog(cfg, s, runs), step) by {
      assert runs[..|runs|] == runs;
    }
    if WritersSeen(cfg, s, runs, |runs|, step) {
      SeenWritersWriteOnce(cfg, s, runs, |runs|, step);
    } else {
      UnseenWriterWritesTwice(cfg, s, runs, step);
    }
  }

  /** Executions that do not overlap apply once, and LIVENESS and FACE_MATCH leave PENDING together. */
  lemma {:induction false} TasksApplyOnce(cfg: Config, s: Serial, runs: seq<Execution>)
    requires Untouched(cfg, s) && AllDispatched(runs)
    requires forall k :: 0 <= k < |runs| ==> runs[k].seen >= k
    ensures var log := TaskLog(cfg, s, runs);
            && WrittenOnce(log, RunOps(cfg, s, log).row)
            && InStep(cfg.policy, RunOps(cfg, s, log).row)
  {
    PendingUntilWritten(cfg, s, runs);
    forall step | Processed(step) ensures Writes(TaskLog(cfg, s, runs), step) <= 1 {
      AppliedOnceExactly(cfg, s, runs, step);
    }
  }

  lemma {:induction false} TaskLogSnoc(cfg: Config, s: Serial, runs: seq<Execution>, run: Execution)
    ensures TaskLog(cfg, s, runs + [run])
         == TaskLog(cfg, s, runs) + TaskOps(cfg.policy, SeenRow(cfg, s, runs, run.seen), run.task)
  {
    assert (runs + [run])[..|runs|] == runs;
  }

  lemma {:induction false} OneExecution(cfg: Config, s: Serial, run: Execution)
    ensures TaskLog(cfg, s, [run]) == TaskOps(cfg.policy, s.row, run.task)
  {
    TaskLogSnoc(cfg, s, [], run);
    assert [] + [run] == [run];
    assert TaskLog(cfg, s, []) == [] && SeenRow(cfg, s, [], run.seen) == s.row;
  }

  lemma {:induction false} TwoExecutions(cfg: Config, s: Serial, first: Execution, second: Execution)
    ensures var one := TaskOps(cfg.policy, s.row, first.task);
            var seen := if second.seen == 0 then s.row else RunOps(cfg, s, one).row;
            TaskLog(cfg, s, [first, second]) == one + TaskOps(cfg.policy, seen, second.task)
  {
    OneExecution(cfg, s, first);
    TaskLogSnoc(cfg, s, [first], second);
    assert [first] + [second] == [first, second] && [first][..0] == [];
  }

  /** Overlap defeats it: two document tasks that read before either commits write the check twice, the later decides. */
  lemma {:induction false} OverlappingTasksWriteTwice(cfg: Config, s: Serial, r: Reading, other: Reading, now: int)
    requires IsPending(s.row, DocumentVerification)
    ensures var log := TaskLog(cfg, s, [Execution(DocumentTask(r, now), 0), Execution(DocumentTask(other, now), 0)]);
            && Writes(log, DocumentVerification) == 2
            && StatusOf(RunOps(cfg, s, log).row.checks, DocumentVerification) == DocumentStatus(other)
  {
    var first, second := Execution(DocumentTask(r, now), 0), Execution(DocumentTask(other, now), 0);
    var a, b := TaskOps(cfg.policy, s.row, first.task), TaskOps(cfg.policy, s.row, second.task);
    TwoExecutions(cfg, s, first, second);
    DocumentShape(r, now, DocumentVerification);
    DocumentShape(other, now, DocumentVerification);
    WritesConcat(a, b, DocumentVerification);
    LastWriteConcat(a, b, DocumentVerification);
    CheckIsLastWrite(cfg, s, a + b, DocumentVerification);
  }

  /** The flow condition is needed: matching faces without liveness re-applies every selfie, even without overlap. */
  lemma {:induction false} SelfieWithoutLivenessReapplies(cfg: Config, s: Serial, c: Capture, now: int)
    requires cfg.policy.Requires(FaceMatch) && !cfg.policy.Requires(Liveness)
    requires IsPending(s.row, Liveness)
    ensures Writes(TaskLog(cfg, s, [Execution(SelfieTask(c, now), 0), Execution(SelfieTask(c, now), 1)]), FaceMatch) == 2
  {
    var task := SelfieTask(c, now);
    var one := TaskOps(cfg.policy, s.row, task);
    TwoExecutions(cfg, s, Execution(task, 0), Execution(task, 1));
    SelfieShape(cfg.policy, c, now, Liveness);
    CheckIsLastWrite(cfg, s, one, Liveness);
    SelfieWritesFace(cfg.policy, s.row, c, now);
    SelfieWritesFace(cfg.policy, RunOps(cfg, s, one).row, c, now);
    WritesConcat(one, TaskOps(cfg.policy, RunOps(cfg, s, one).row, task), FaceMatch);
  }

  lemma SelfieWritesFace(policy: FlowPolicy, row: Row, c: Capture, now: int)
    requires policy.Requires(FaceMatch) && IsPending(row, Liveness)
    ensures Writes(TaskOps(policy, row, SelfieTask(c, now)), FaceMatch) == 1
  {
    SelfieShape(policy, c, now, FaceMatch);
  }

  /** The shipped flows meet the condition. */
  lemma ShippedFlowsPairSelfieSteps(policy: FlowPolicy)
    requires policy in FLOWS
    ensures policy.Requires(FaceMatch) <==> policy.Requires(Liveness)
  {
    assert policy != CITIZEN ==> policy.steps[4] == Liveness && policy.steps[5] == FaceMatch;
  }

  // ---- The failure hook never rejects on its own ----------------------------

  lemma {:induction false} HookChecks(cfg: Config, s: Serial, steps: seq<Step>, now: int, step: Step)
    ensures StatusOf(RunOps(cfg, s, ReviewOps(s.row, steps, now)).row.checks, step)
         == if step in steps && IsPending(s.row, step) then NeedsReview else StatusOf(s.row.checks, step)
  {
    CheckIsLastWrite(cfg, s, ReviewOps(s.row, steps, now), step);
    HookLastWrite(s.row, steps, now, step);
  }

  lemma {:induction false} ReviewOpsMerge(row: Row, steps: seq<Step>, now: int, op: Op)
    requires op in ReviewOps(row, steps, now)
    ensures op.SetCheck?
  {
    if op in ReviewOps(row, steps[..|steps| - 1], now) {
      ReviewOpsMerge(row, steps[..|steps| - 1], now, op);
    }
  }

  lemma MergeOpens(cfg: Config, s: Serial, op: Op)
    requires op.SetCheck?
    ensures RunOp(cfg, s, op).row.status == if s.row.status.Created? then InProgress else s.row.status
  {
  }

  /** Merging checks takes a session out of CREATED and changes no other status. */
  lemma {:induction false} MergesOpen(cfg: Config, s: Serial, ops: seq<Op>)
    requires forall op :: op in ops ==> op.SetCheck?
    ensures RunOps(cfg, s, ops).row.status == if s.row.status.Created? && ops != [] then InProgress else s.row.status
  {
    if ops != [] {
      var n := |ops| - 1;
      MergesOpen(cfg, s, ops[..n]);
      MergeOpens(cfg, RunOps(cfg, s, ops[..n]), ops[n]);
    }
  }

  lemma {:induction false} HookRun(cfg: Config, s: Serial, row: Row, steps: seq<Step>, now: int)
    requires !Terminal(row.status)
    ensures RunOps(cfg, s, TaskOps(cfg.policy, row, FailureHook(steps, now)))
         == RunOp(cfg, RunOps(cfg, s, ReviewOps(row, steps, now)), Evaluate(now))
  {
    RunSnoc(cfg, s, ReviewOps(row, steps, now), Evaluate(now));
  }

  lemma {:induction false} ReviewedDecision(cfg: Config, s: Serial, steps: seq<Step>, now: int, step: Step)
    requires step in steps && step in cfg.policy.steps && !Hidden(step) && IsPending(s.row, step)
    ensures var after := RunOps(cfg, s, ReviewOps(s.row, steps, now)).row;
            var status := Decide(cfg.policy, cfg.thresholds, after.checks, after.internal).status;
            && (status.Rejected? <==> HasHardFailure(cfg.policy, s.row.checks))
            && (status.Rejected? || status.InReview? || status.InProgress?)
  {
    var after := RunOps(cfg, s, ReviewOps(s.row, steps, now)).row;
    DecideMeaning(cfg.policy, cfg.thresholds, after.checks, after.internal);
    HookChecks(cfg, s, steps, now, step);
    assert HasDoubt(cfg.policy, after.checks) by {
      assert StatusOf(after.checks, step).NeedsReview?;
    }
    forall x ensures IsHardFailure(cfg.policy, after.checks, x) <==> IsHardFailure(cfg.policy, s.row.checks, x) {
      HookChecks(cfg, s, steps, now, x);
    }
  }

  /**
   When the hook turns at least one pending step of an open session's flow into REVIEW,
   the session it leaves is REJECTED exactly if a hard failure was already stored.
   */
  lemma {:induction false} HookRejectsOnlyStoredFailure(cfg: Config, s: Serial, steps: seq<Step>, now: int, step: Step)
    requires !Terminal(s.row.status)
    requires step in steps && step in cfg.policy.steps && !Hidden(step) && IsPending(s.row, step)
    ensures var ops := TaskOps(cfg.policy, s.row, FailureHook(steps, now));
            RunOps(cfg, s, ops).row.status.Rejected? <==> HasHardFailure(cfg.policy, s.row.checks)
  {
    var ops := ReviewOps(s.row, steps, now);
    forall op | op in ops ensures op.SetCheck? {
      ReviewOpsMerge(s.row, steps, now, op);
    }
    MergesOpen(cfg, s, ops);
    HookLastWrite(s.row, steps, now, step);
    ReviewedDecision(cfg, s, steps, now, step);
    AllowedIsStored(cfg, RunOps(cfg, s, ops), now);
    HookRun(cfg, s, s.row, steps, now);
  }

  lemma AllowedIsStored(cfg: Config, s: Serial, now: int)
    ensures var status := Decide(cfg.policy, cfg.thresholds, s.row.checks, s.row.internal).status;
            TransitionAllowed(s.row.status, status) ==> RunOp(cfg, s, Evaluate(now)).row.status == status
  {
  }

  // ---- The tasks as the worker runs them ------------------------------------

  /** The trail also holds what a task notes on its own before its checks are merged and evaluated. */
  function Note(s: Serial, notes: seq<Entry>): Serial {
    s.(entries := s.entries + notes)
  }

  function Noted(eventType: EventType, json: string): Entry {
    Entry(eventType, OtherFields(json), SYSTEM, None)
  }

  function DocumentNotes(r: Reading): seq<Entry> {
    [Noted(OcrCompleted, "confidence"),
     Noted(if DocumentStatus(r).Passed? then DocumentVerified else DocumentRejected, "status")]
  }

  function LivenessNotes(c: Capture): seq<Entry> {
    [Noted(if LivenessStatus(c).Passed? then LivenessPassed else LivenessFailed, "provider")]
  }

  /** Only a match that was run is noted. */
  predicate Matches(policy: FlowPolicy, c: Capture) {
    policy.Requires(FaceMatch) && LivenessStatus(c).Passed? && c.matching.Some?
  }

  function FaceMatchNotes(policy: FlowPolicy, c: Capture): seq<Entry> {
    if Matches(policy, c)
    then [Noted(if FaceMatchStatus(c).Passed? then FaceMatchPassed else FaceMatchFailed, "provider")] else []
  }

  datatype Outcome = AlreadyApplied | NotOpen | Ran(status: SessionStatus)

  /** The columns of a document row that the engine writes. */
  class Document {
    var status: CheckStatus
    var confidence: real
    var expired: bool
    var processedAt: Option<int>

    constructor ()
      ensures status == Pending && processedAt == None
    {
      status, confidence, expired, processedAt := Pending, 0.0, false, None;
    }
  }

  const IDENTITY_FIELDS := [
    "first_name", "last_name", "date_of_birth", "document_number", "nationality", "issuing_country",
    "document_type", "expiry_date", "sex"]

  /** The `identity` column of a session. */
  class Identity {
    var fields: Fields

    constructor ()
      ensures fields == map[]
    {
      fields := map[];
    }
  }

  function ReadFields(r: Reading): Fields {
    map key | key in r.fields && key in IDENTITY_FIELDS && r.fields[key] != "" :: r.fields[key]
  }

  /** A failed document leaves the identity alone. */
  function Identified(fields: Fields, r: Reading): Fields {
    if DocumentStatus(r).Failed? then fields else fields + ReadFields(r)
  }

  function IdentifiedBy(fields: Fields, readings: seq<Reading>): Fields {
    if readings == [] then fields
    else Identified(IdentifiedBy(fields, readings[..|readings| - 1]), readings[|readings| - 1])
  }

  predicate Contributes(r: Reading, key: string) {
    !r.expired && r.authentic && key in IDENTITY_FIELDS && key in r.fields && r.fields[key] != ""
  }

  /** The value that the last document to contribute the field gave it. */
  function LastContribution(readings: seq<Reading>, key: string): Option<string> {
    if readings == [] then None
    else
      var r := readings[|readings| - 1];
      if Contributes(r, key) then Some(r.fields[key]) else LastContribution(readings[..|readings| - 1], key)
  }

  function Field(fields: Fields, key: string): Option<string> {
    if key in fields then Some(fields[key]) else None
  }

  /** Over any series of documents an identity field is that of the last one that contributed it: none is ever lost. */
  lemma {:induction false} IdentityIsLastContribution(fields: Fields, readings: seq<Reading>, key: string)
    ensures var last := LastContribution(readings, key);
            Field(IdentifiedBy(fields, readings), key) == if last.Some? then last else Field(fields, key)
  {
    if readings != [] {
      IdentityIsLastContribution(fields, readings[..|readings| - 1], key);
    }
  }

  /** The identity engine: document columns, two events, the identity fields, one check. */
  method VerifyDocument(session: Session, document: Document, identity: Identity, r: Reading, now: int)
    requires session.Valid()
    modifies session, session.trail, document, identity
    ensures identity.fields == Identified(old(identity.fields), r)
    ensures session.Valid() && session.Recorded(old(session.trail.events))
    ensures session.View() == RunOp(session.cfg, Note(old(session.View()), DocumentNotes(r)), DocumentOp(r, now))
    ensures document.status == DocumentStatus(r) && document.confidence == r.confidence
    ensures document.expired == r.expired && document.processedAt == Some(now)
  {
    session.Record(OcrCompleted, OtherFields("confidence"), SYSTEM, now);
    document.expired, document.confidence, document.processedAt := r.expired, r.confidence, Some(now);
    var status :=
      if r.expired || !r.authentic then Failed
      else if r.confidence < DOCUMENT_REVIEW_THRESHOLD then NeedsReview
      else Passed;
    document.status := status;
    session.Record(if status.Passed? then DocumentVerified else DocumentRejected, OtherFields("status"), SYSTEM, now);
    assert session.View() == Note(old(session.View()), DocumentNotes(r));
    if !status.Failed? {
      identity.fields := identity.fields + ReadFields(r);
    }
    session.SetCheck(DocumentVerification, status, Some(StepData(Some(r.confidence), Some(r.ocrConfidence), None)), now);
  }

  method ProcessDocument(session: Session, document: Document, identity: Identity, r: Reading, now: int)
    returns (outcome: Outcome)
    requires session.Valid()
    modifies session, session.trail, document, identity
    ensures session.Valid() && session.Recorded(old(session.trail.events))
    ensures var s := old(session.View());
            var ops := TaskOps(session.cfg.policy, s.row, DocumentTask(r, now));
            if IsPending(s.row, DocumentVerification)
            then outcome == Ran(session.status)
                 && session.View() == RunOps(session.cfg, Note(s, DocumentNotes(r)), ops)
                 && document.status == DocumentStatus(r) && document.confidence == r.confidence
                 && document.expired == r.expired && document.processedAt == Some(now)
                 && identity.fields == Identified(old(identity.fields), r)
            else outcome == AlreadyApplied && session.View() == s && unchanged(document) && unchanged(identity)
  {
    if !StatusOf(session.checks, DocumentVerification).Pending? {
      return AlreadyApplied;
    }
    ghost var s := session.View();
    VerifyDocument(session, document, identity, r, now);
    TwoOps(session.cfg, Note(s, DocumentNotes(r)), DocumentOp(r, now), Evaluate(now));
    var result := session.Evaluate(now);
    return Ran(result);
  }

  lemma {:induction false} TwoOps(cfg: Config, s: Serial, a: Op, b: Op)
    ensures RunOps(cfg, s, [a]) == RunOp(cfg, s, a)
    ensures RunOps(cfg, s, [a] + [b]) == RunOp(cfg, RunOp(cfg, s, a), b)
  {
    assert [a][..0] == [];
    RunSnoc(cfg, s, [a], b);
  }

  /** The loop over the pending ones among the steps that the failed task names. */
  method ReviewPending(session: Session, steps: seq<Step>, now: int)
    requires session.Valid()
    modifies session
    ensures session.Valid()
    ensures session.View() == RunOps(session.cfg, old(session.View()), ReviewOps(old(session.CurrentRow()), steps, now))
  {
    ghost var s := session.View();
    var checks := session.checks;
    for i := 0 to |steps|
      invariant session.Valid() && session.View() == RunOps(session.cfg, s, ReviewOps(s.row, steps[..i], now))
    {
      if StatusOf(checks, steps[i]).Pending? {
        ReviewMore(session.cfg, s, s.row, steps, i, now);
        session.SetCheck(steps[i], NeedsReview, Some(NO_DATA), now);
      } else {
        ReviewSame(s.row, steps, i, now);
      }
    }
    assert steps[..|steps|] == steps;
  }

  method ProcessingFailed(session: Session, steps: seq<Step>, now: int) returns (outcome: Outcome)
    requires session.Valid()
    modifies session, session.trail
    ensures session.Valid() && session.Recorded(old(session.trail.events))
    ensures var s := old(session.View());
            var ops := TaskOps(session.cfg.policy, s.row, FailureHook(steps, now));
            if Terminal(s.row.status) then outcome == NotOpen && session.View() == s
            else outcome == Ran(session.status)
                 && session.View() == RunOps(session.cfg, Note(s, [Noted(EventType.ProcessingFailed, "steps")]), ops)
  {
    if Terminal(session.status) {
      return NotOpen;
    }
    ghost var s := session.View();
    session.Record(EventType.ProcessingFailed, OtherFields("steps"), SYSTEM, now);
    ghost var noted := Note(s, [Noted(EventType.ProcessingFailed, "steps")]);
    ReviewPending(session, steps, now);
    HookRun(session.cfg, noted, s.row, steps, now);
    var result := session.Evaluate(now);
    return Ran(result);
  }

  lemma {:induction false} ReviewSame(row: Row, steps: seq<Step>, i: nat, now: int)
    requires i < |steps| && !IsPending(row, steps[i])
    ensures ReviewOps(row, steps[..i + 1], now) == ReviewOps(row, steps[..i], now)
  {
    assert steps[..i + 1][..i] == steps[..i];
  }

  lemma {:induction false} ReviewMore(cfg: Config, s: Serial, row: Row, steps: seq<Step>, i: nat, now: int)
    requires i < |steps| && IsPending(row, steps[i])
    ensures RunOps(cfg, s, ReviewOps(row, steps[..i + 1], now))
         == RunOp(cfg, RunOps(cfg, s, ReviewOps(row, steps[..i], now)), SetCheck(steps[i], NeedsReview, Some(NO_DATA), now))
  {
    assert steps[..i + 1][..i] == steps[..i];
    RunSnoc(cfg, s, ReviewOps(row, steps[..i], now), SetCheck(steps[i], NeedsReview, Some(NO_DATA), now));
  }

  /** A row of `biometric_checks`. */
  datatype BiometricRow = BiometricRow(kind: Step, status: CheckStatus, score: real)

  class BiometricTable {
    var rows: seq<BiometricRow>

    constructor ()
      ensures rows == []
    {
      rows := [];
    }

    method Add(kind: Step, status: CheckStatus, score: real)
      modifies this
      ensures rows == old(rows) + [BiometricRow(kind, status, score)]
    {
      rows := rows + [BiometricRow(kind, status, score)];
    }
  }

  /** The liveness measurement is always stored and noted; the check is written where the flow requires it. */
  method CheckLiveness(session: Session, table: BiometricTable, c: Capture, now: int)
    requires session.Valid()
    modifies session, session.trail, table
    ensures session.Valid() && session.Recorded(old(session.trail.events))
    ensures table.rows == old(table.rows) + [BiometricRow(Liveness, LivenessStatus(c), c.liveness)]
    ensures var noted := Note(old(session.View()), LivenessNotes(c));
            session.View() == if session.cfg.policy.Requires(Liveness)
                              then RunOp(session.cfg, noted, LivenessOp(c, now)) else noted
  {
    var live := if c.liveness >= LIVENESS_THRESHOLD then Passed else Failed;
    table.Add(Liveness, live, c.liveness);
    session.Record(if live.Passed? then LivenessPassed else LivenessFailed, OtherFields("provider"), SYSTEM, now);
    if session.cfg.policy.Requires(Liveness) {
      session.SetCheck(Liveness, live, Some(StepData(None, None, Some(c.liveness))), now);
    }
  }

  /** A match that was run is stored and noted; a spoofed capture or a missing document fails without one. */
  method CheckFaceMatch(session: Session, table: BiometricTable, c: Capture, now: int)
    requires session.Valid()
    modifies session, session.trail, table
    ensures session.Valid() && session.Recorded(old(session.trail.events))
    ensures table.rows == old(table.rows)
                          + (if Matches(session.cfg.policy, c)
                             then [BiometricRow(FaceMatch, FaceMatchStatus(c), c.matching.value)] else [])
    ensures var noted := Note(old(session.View()), FaceMatchNotes(session.cfg.policy, c));
            session.View() == if session.cfg.policy.Requires(FaceMatch)
                              then RunOp(session.cfg, noted, FaceMatchOp(c, now)) else noted
  {
    ghost var s := session.View();
    assert Note(s, []) == s;
    if !session.cfg.policy.Requires(FaceMatch) {
      return;
    }
    if c.liveness < LIVENESS_THRESHOLD || c.matching.None? {
      session.SetCheck(FaceMatch, Failed, Some(NO_DATA), now);
      return;
    }
    var matched := if c.matching.value >= FACE_MATCH_THRESHOLD then Passed else Failed;
    table.Add(FaceMatch, matched, c.matching.value);
    session.Record(if matched.Passed? then FaceMatchPassed else FaceMatchFailed, OtherFields("provider"), SYSTEM, now);
    session.SetCheck(FaceMatch, matched, Some(StepData(None, None, c.matching)), now);
  }

  method ProcessSelfie(session: Session, table: BiometricTable, c: Capture, now: int) returns (outcome: Outcome)
    requires session.Valid()
    modifies session, session.trail, table
    ensures session.Valid() && session.Recorded(old(session.trail.events))
    ensures var s := old(session.View());
            var policy := session.cfg.policy;
            var ops := TaskOps(policy, s.row, SelfieTask(c, now));
            if IsPending(s.row, Liveness)
            then outcome == Ran(session.status)
                 && session.View() == RunOps(session.cfg, Note(s, LivenessNotes(c) + FaceMatchNotes(policy, c)), ops)
            else outcome == AlreadyApplied && session.View() == s && unchanged(table)
  {
    if !StatusOf(session.checks, Liveness).Pending? {
      return AlreadyApplied;
    }
    ghost var s := session.View();
    CheckLiveness(session, table, c, now);
    CheckFaceMatch(session, table, c, now);
    ghost var matched := session.View();
    var result := session.Evaluate(now);
    SelfieRun(session.cfg, s, matched, c, now);
    return Ran(result);
  }

  /** A note made after a merge could as well have been made before it. */
  lemma NoteCommutes(cfg: Config, s: Serial, first: seq<Entry>, second: seq<Entry>, op: Op)
    requires op.SetCheck?
    ensures Note(RunOp(cfg, Note(s, first), op), second) == RunOp(cfg, Note(s, first + second), op)
    ensures Note(Note(s, first), second) == Note(s, first + second)
  {
    assert s.entries + first + second == s.entries + (first + second);
    assert s.entries + first + [] == s.entries + first;
    assert s.entries + (first + second) + [] == s.entries + (first + second);
  }

  lemma {:induction false} SelfieRun(cfg: Config, s: Serial, matched: Serial, c: Capture, now: int)
    requires var policy := cfg.policy;
             var live := Note(s, LivenessNotes(c));
             var lived := if policy.Requires(Liveness) then RunOp(cfg, live, LivenessOp(c, now)) else live;
             var noted := Note(lived, FaceMatchNotes(policy, c));
             matched == if policy.Requires(FaceMatch) then RunOp(cfg, noted, FaceMatchOp(c, now)) else noted
    ensures var noted := Note(s, LivenessNotes(c) + FaceMatchNotes(cfg.policy, c));
            RunOp(cfg, matched, Evaluate(now)) == RunOps(cfg, noted, SelfieOps(cfg.policy, c, now) + [Evaluate(now)])
  {
    var live, face := LivenessOp(c, now), FaceMatchOp(c, now);
    var noted := Note(s, LivenessNotes(c) + FaceMatchNotes(cfg.policy, c));
    var first := if cfg.policy.Requires(Liveness) then [live] else [];
    var ops := SelfieOps(cfg.policy, c, now);
    NoteCommutes(cfg, s, LivenessNotes(c), FaceMatchNotes(cfg.policy, c), live);
    RunSnoc(cfg, noted, [], live);
    assert [] + [live] == [live];
    if cfg.policy.Requires(FaceMatch) {
      RunSnoc(cfg, noted, first, face);
      assert ops == first + [face];
    } else {
      assert ops == first;
    }
    RunSnoc(cfg, noted, ops, Evaluate(now));
  }
}
