/**
 The reconciliation sweep (`reconcile_stuck_sessions`, app/workers/tasks.py):
 closes expired sessions and re-queues lost work, at most once per
 `stuck_session_minutes` and session as long as sweeps do not overlap (see Scan).
 */
module Sweep {
  import opened Enums
  import opened Audit
  import opened Kyc
  import opened Scan

  /** The newest document and selfie of a session, if any. */
  datatype Uploads = Uploads(document: Option<string>, selfie: Option<string>)

  datatype Plan = Leave | Close | Requeue(document: bool, selfie: bool)

  function PlanFor(row: Row, uploads: Uploads, cutoff: int, now: int): Plan {
    if !Scanned(row, cutoff) then Leave
    else if row.expiresAt <= now then Close
    else if Throttled(row, cutoff) then Leave
    else
      var document := IsPending(row, DocumentVerification) && uploads.document.Some?;
      var selfie := IsPending(row, Liveness) && uploads.selfie.Some?;
      if document || selfie then Requeue(document, selfie) else Leave
  }

  /** A plan re-queues for some uploads exactly when the row read allows it. */
  lemma PlanRequeues(row: Row, cutoff: int, now: int)
    ensures (exists uploads :: PlanFor(row, uploads, cutoff, now).Requeue?) <==> MayRequeue(row, cutoff, now)
  {
    if MayRequeue(row, cutoff, now) {
      assert PlanFor(row, Uploads(Some("document"), Some("selfie")), cutoff, now).Requeue?;
    }
  }

  /**
   What the sweep does to one session: `now` is the clock of the scan, `later` that of
   the row operations, `seen` the committed operations the scan had read.
   */
  function PlanOps(plan: Plan, seen: nat, cutoff: int, now: int, later: int): seq<Op> {
    match plan
    case Leave => []
    case Close => [Expire(later)]
    case Requeue(_, _) => [MarkRequeued(Sighting(seen, cutoff, now), later)]
  }

  datatype Dispatch = DispatchDocument(document: string) | DispatchSelfie(session: nat, selfie: string)

  function DispatchesFor(i: nat, plan: Plan, uploads: Uploads): seq<Dispatch> {
    if !plan.Requeue? then []
    else
      (if plan.document && uploads.document.Some? then [DispatchDocument(uploads.document.value)] else [])
      + (if plan.selfie && uploads.selfie.Some? then [DispatchSelfie(i, uploads.selfie.value)] else [])
  }

  datatype Report = Report(scanned: nat, expired: seq<nat>, requeued: seq<nat>)

  function AddToReport(report: Report, i: nat, scanned: bool, plan: Plan): Report {
    Report(report.scanned + (if scanned then 1 else 0),
           if plan.Close? then report.expired + [i] else report.expired,
           if plan.Requeue? then report.requeued + [i] else report.requeued)
  }

  /** The report and the dispatch list over the first sessions, from the rows before the sweep. */
  function ReportOf(rows: seq<Row>, uploads: seq<Uploads>, cutoff: int, now: int): (Report, seq<Dispatch>)
    requires |rows| == |uploads|
  {
    if rows == [] then (Report(0, [], []), [])
    else
      var i := |rows| - 1;
      var (report, dispatches) := ReportOf(rows[..i], uploads[..i], cutoff, now);
      var plan := PlanFor(rows[i], uploads[i], cutoff, now);
      (AddToReport(report, i, Scanned(rows[i], cutoff), plan), dispatches + DispatchesFor(i, plan, uploads[i]))
  }

  lemma {:induction false} ReportSnoc(rows: seq<Row>, uploads: seq<Uploads>, i: nat, cutoff: int, now: int)
    requires i < |rows| == |uploads|
    ensures var (report, dispatches) := ReportOf(rows[..i], uploads[..i], cutoff, now);
            var plan := PlanFor(rows[i], uploads[i], cutoff, now);
            ReportOf(rows[..i + 1], uploads[..i + 1], cutoff, now)
            == (AddToReport(report, i, Scanned(rows[i], cutoff), plan),
                dispatches + DispatchesFor(i, plan, uploads[i]))
  {
    assert rows[..i + 1][..i] == rows[..i] && uploads[..i + 1][..i] == uploads[..i];
  }

  /** The sessions of a scan with their trails, no two sharing one. */
  ghost predicate Separate(sessions: seq<Session>, trails: seq<AuditTrail>) {
    && |trails| == |sessions|
    && (forall i :: 0 <= i < |sessions| ==> sessions[i].trail == trails[i])
    && (forall i, j :: 0 <= i < j < |sessions| ==> sessions[i] != sessions[j] && trails[i] != trails[j])
  }

  ghost function Views(sessions: seq<Session>, trails: seq<AuditTrail>): (views: seq<Serial>)
    requires Separate(sessions, trails)
    reads sessions, trails
    ensures |views| == |sessions|
    ensures forall i :: 0 <= i < |sessions| ==> views[i] == sessions[i].View()
  {
    seq(|sessions|, i requires Separate(sessions, trails) && 0 <= i < |sessions| reads sessions, trails => sessions[i].View())
  }

  function Rows(views: seq<Serial>): (rows: seq<Row>)
    ensures |rows| == |views| && forall i :: 0 <= i < |views| ==> rows[i] == views[i].row
  {
    seq(|views|, i requires 0 <= i < |views| => views[i].row)
  }

  /** One session of the scan; `after` is where its plan leads. */
  ghost predicate Swept(session: Session, was: Serial, uploads: Uploads, seen: nat, cutoff: int, now: int, later: int)
    reads session, session.trail
  {
    && session.Valid()
    && session.View() == RunOps(session.cfg, was, PlanOps(PlanFor(was.row, uploads, cutoff, now), seen, cutoff, now, later))
    && (Scanned(was.row, cutoff) && was.row.expiresAt <= now ==> Terminal(session.status))
  }

  method SweepOne(session: Session, uploads: Uploads, seen: nat, cutoff: int, now: int, later: int)
    returns (plan: Plan)
    requires session.Valid() && now <= later
    modifies session, session.trail
    ensures Swept(session, old(session.View()), uploads, seen, cutoff, now, later)
    ensures plan == PlanFor(old(session.CurrentRow()), uploads, cutoff, now)
  {
    plan := PlanFor(session.CurrentRow(), uploads, cutoff, now);
    OneOpRun(session.cfg, session.View(), plan, seen, cutoff, now, later);
    if plan.Close? {
      session.Expire(later);
    } else if plan.Requeue? {
      session.MarkRequeued(Sighting(seen, cutoff, now), later);
    }
  }

  /** The loop over the sessions, one transaction for all of them. */
  method ReconcileStuckSessions(
    sessions: seq<Session>, trails: seq<AuditTrail>, uploads: seq<Uploads>, seen: seq<nat>,
    cutoff: int, now: int, later: int)
    returns (report: Report, dispatches: seq<Dispatch>)
    requires |uploads| == |seen| == |sessions| && now <= later
    requires forall i :: 0 <= i < |sessions| ==> sessions[i].Valid()
    requires Separate(sessions, trails)
    modifies sessions, trails
    ensures (report, dispatches) == ReportOf(Rows(old(Views(sessions, trails))), uploads, cutoff, now)
    ensures forall i :: 0 <= i < |sessions| ==>
                          Swept(sessions[i], old(Views(sessions, trails))[i], uploads[i], seen[i], cutoff, now, later)
  {
    ghost var was := Views(sessions, trails);
    report := Report(0, [], []);
    dispatches := [];
    for i := 0 to |sessions|
      invariant (report, dispatches) == ReportOf(Rows(was)[..i], uploads[..i], cutoff, now)
      invariant forall j :: i <= j < |sessions| ==> sessions[j].Valid() && sessions[j].View() == was[j]
      invariant forall j :: 0 <= j < i ==> Swept(sessions[j], was[j], uploads[j], seen[j], cutoff, now, later)
    {
      ReportSnoc(Rows(was), uploads, i, cutoff, now);
      var row := sessions[i].CurrentRow();
      assert sessions[i].View().row == was[i].row;
      var plan := SweepOne(sessions[i], uploads[i], seen[i], cutoff, now, later);
      report := AddToReport(report, i, Scanned(row, cutoff), plan);
      dispatches := dispatches + DispatchesFor(i, plan, uploads[i]);
    }
    assert Rows(was)[..|sessions|] == Rows(was) && uploads[..|sessions|] == uploads;
  }

  lemma {:induction false} OneOpRun(cfg: Config, s: Serial, plan: Plan, seen: nat, cutoff: int, now: int, later: int)
    ensures RunOps(cfg, s, PlanOps(plan, seen, cutoff, now, later)) ==
            match plan
            case Leave => s
            case Close => RunOp(cfg, s, Expire(later))
            case Requeue(_, _) => RunOp(cfg, s, MarkRequeued(Sighting(seen, cutoff, now), later))
  {
    var ops := PlanOps(plan, seen, cutoff, now, later);
    assert ops != [] ==> ops[..|ops| - 1] == [];
  }
}
