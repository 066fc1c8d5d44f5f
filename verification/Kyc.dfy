/**
 The session state machine (app/services/kyc.py).  Every operation runs under
 the session row lock, so it is a function from the row it re-read to the row it
 writes, the audit entries it records and whether it queues a webhook; `Session`
 performs the same steps on its fields, in place.
 */
module Kyc {
  import opened Enums
  import opened Policy
  import opened Decision
  import opened Audit
  import opened Webhooks

  datatype Config = Config(policy: FlowPolicy, thresholds: Thresholds, hasUrl: bool)

  datatype Row = Row(
    status: SessionStatus,
    checks: map<Step, CheckStatus>,
    internal: Internal,
    reasons: seq<Reason>,
    updatedAt: int,
    expiresAt: int,
    completedAt: Option<int>)

  function CreateRow(policy: FlowPolicy, now: int, ttl: int): Row {
    Row(Created, map s | s in DecidableSteps(policy) :: Pending, EMPTY_INTERNAL, [], now, now + ttl, None)
  }

  /** Statuses the platform itself may move to; a terminal status only to itself. */
  predicate TransitionAllowed(current: SessionStatus, target: SessionStatus) {
    match current
    case Created => target.Created? || target.InProgress? || target.Expired?
    case InProgress => !target.Created?
    case Processing => !target.Created? && !target.Processing?
    case _ => current == target
  }

  /** What one locked operation does. */
  datatype Effect = Effect(row: Row, entries: seq<Entry>, notify: bool)

  /** `data` is `None` when the caller passes no payload (or an empty one). */
  function SetCheckRow(row: Row, step: Step, status: CheckStatus, data: Option<StepData>, now: int): Row {
    row.(checks := row.checks[step := status],
    internal := if data.Some? then row.internal.(steps := row.internal.steps[step := data.value]) else row.internal,
    status := if row.status.Created? then InProgress else row.status,
    updatedAt := now)
  }

  const SYSTEM := "SYSTEM"

  predicate IsPending(row: Row, step: Step) {
    StatusOf(row.checks, step).Pending?
  }

  function EvaluateEffect(cfg: Config, row: Row, now: int): Effect {
    var d := Decide(cfg.policy, cfg.thresholds, row.checks, row.internal);
    if TransitionAllowed(row.status, d.status) then DecidedEffect(row, d, now)
    else
      Effect(row.(updatedAt := now),
             [Entry(DecisionBlocked, BlockedFields(row.status, d.status, d.reasons), SYSTEM, None)],
             false)
  }

  /** An allowed decision is stored, recorded if it closes the session, and announced if it is news. */
  function DecidedEffect(row: Row, d: Decision, now: int): Effect {
    var closes := d.completed && row.completedAt.None?;
    Effect(row.(status := d.status,
           reasons := if d.completed then d.reasons else [],
           updatedAt := now,
           internal := row.internal.(risk := Some(Risk(d.score, d.level))),
           completedAt := if closes then Some(now) else row.completedAt),
           if closes
           then [Entry(KycDecision, DecisionFields(d.status, d.reasons, Hundredths(d.score), d.level), SYSTEM, None)]
           else [],
           d.completed && row.status != d.status)
  }

  function OverrideEffect(row: Row, target: SessionStatus, reason: string, actor: string, now: int): Effect {
    Effect(row.(status := target,
           completedAt := if row.completedAt.Some? then row.completedAt else Some(now),
           updatedAt := now),
           [Entry(DecisionOverridden, OverrideFields(row.status, target, reason), actor, None)],
           row.status != target)
  }

  function ExpireEffect(row: Row, now: int): Effect {
    if Terminal(row.status) || row.expiresAt > now then Effect(row.(updatedAt := now), [], false)
    else
      Effect(row.(status := Expired, updatedAt := now),
             [Entry(SessionExpired, ExpiryFields(row.expiresAt), SYSTEM, None)],
             true)
  }

  /** The operations that write the session row, with the clock they read. */
  datatype Op =
    | SetCheck(step: Step, status: CheckStatus, data: Option<StepData>, now: int)
    | Evaluate(now: int)
    | Override(target: SessionStatus, reason: string, actor: string, now: int)
    | Expire(now: int)
    | MarkRequeued(sighting: Sighting, now: int)
    | Purge(now: int)

  /**
   What an unlocked scan of the sweep rested on: how many committed operations it had
   seen, the cutoff it was taken with, and the clock that becomes `reconciled_at`.
   */
  datatype Sighting = Sighting(seen: nat, cutoff: int, at: int)

  /** Override refuses a target that is not terminal; the purge takes terminal sessions only. */
  predicate Legal(row: Row, op: Op) {
    && (op.Override? ==> Terminal(op.target))
    && (op.Purge? ==> Terminal(row.status))
  }

  function Apply(cfg: Config, row: Row, op: Op): Effect {
    match op
    case SetCheck(step, status, data, now) => Effect(SetCheckRow(row, step, status, data, now), [], false)
    case Evaluate(now) => EvaluateEffect(cfg, row, now)
    case Override(target, reason, actor, now) => OverrideEffect(row, target, reason, actor, now)
    case Expire(now) => ExpireEffect(row, now)
    case MarkRequeued(sighting, now) =>
      Effect(row.(internal := row.internal.(reconciledAt := Some(sighting.at)), updatedAt := now), [], false)
    case Purge(now) => Effect(row.(internal := EMPTY_INTERNAL, updatedAt := now), [], false)
  }

  // ---- Serial runs ----------------------------------------------------------

  /** Row, decision-related audit entries and announced events after a run. */
  datatype Serial = Serial(row: Row, entries: seq<Entry>, announced: seq<WebhookEvent>)

  function Start(policy: FlowPolicy, now: int, ttl: int): Serial {
    Serial(CreateRow(policy, now, ttl), [], [])
  }

  function WithEffect(hasUrl: bool, s: Serial, effect: Effect): Serial {
    Serial(effect.row, s.entries + effect.entries,
           if effect.notify then Announce(hasUrl, s.announced, effect.row.status) else s.announced)
  }

  function RunOp(cfg: Config, s: Serial, op: Op): Serial {
    WithEffect(cfg.hasUrl, s, Apply(cfg, s.row, op))
  }

  function RunOps(cfg: Config, s: Serial, ops: seq<Op>): Serial {
    if ops == [] then s else RunOp(cfg, RunOps(cfg, s, ops[..|ops| - 1]), ops[|ops| - 1])
  }

  ghost predicate LegalRun(cfg: Config, s: Serial, ops: seq<Op>) {
    forall i :: 0 <= i < |ops| ==> Legal(RunOps(cfg, s, ops[..i]).row, ops[i])
  }

  lemma {:induction false} RunSnoc(cfg: Config, s: Serial, ops: seq<Op>, op: Op)
    ensures RunOps(cfg, s, ops + [op]) == RunOp(cfg, RunOps(cfg, s, ops), op)
    ensures LegalRun(cfg, s, ops) && Legal(RunOps(cfg, s, ops).row, op) ==> LegalRun(cfg, s, ops + [op])
  {
    assert (ops + [op])[..|ops|] == ops;
    if LegalRun(cfg, s, ops) && Legal(RunOps(cfg, s, ops).row, op) {
      forall i | 0 <= i < |ops + [op]| ensures Legal(RunOps(cfg, s, (ops + [op])[..i]).row, (ops + [op])[i]) {
        assert i < |ops| ==> (ops + [op])[..i] == ops[..i];
      }
    }
  }

  lemma {:induction false} RunConcat(cfg: Config, s: Serial, first: seq<Op>, second: seq<Op>)
    ensures RunOps(cfg, s, first + second) == RunOps(cfg, RunOps(cfg, s, first), second)
    decreases |second|
  {
    if second == [] {
      assert first + second == first;
    } else {
      var n := |second| - 1;
      RunConcat(cfg, s, first, second[..n]);
      assert (first + second)[..|first + second| - 1] == first + second[..n];
    }
  }

  lemma LegalPrefix(cfg: Config, s: Serial, ops: seq<Op>, k: nat)
    requires LegalRun(cfg, s, ops) && k <= |ops|
    ensures LegalRun(cfg, s, ops[..k])
  {
    forall i | 0 <= i < k ensures Legal(RunOps(cfg, s, ops[..k][..i]).row, ops[..k][i]) {
      assert ops[..k][..i] == ops[..i];
    }
  }

  lemma {:induction false} LegalSuffix(cfg: Config, s: Serial, first: seq<Op>, second: seq<Op>)
    requires LegalRun(cfg, s, first + second)
    ensures LegalRun(cfg, s, first)
    ensures LegalRun(cfg, RunOps(cfg, s, first), second)
  {
    var all := first + second;
    LegalPrefix(cfg, s, all, |first|);
    assert all[..|first|] == first;
    forall i | 0 <= i < |second| ensures Legal(RunOps(cfg, RunOps(cfg, s, first), second[..i]).row, second[i]) {
      RunConcat(cfg, s, first, second[..i]);
      assert all[..|first| + i] == first + second[..i];
      assert all[|first| + i] == second[i];
    }
  }

  /** A longer run is a shorter one continued. */
  lemma {:induction false} ContinueRun(cfg: Config, s: Serial, first: seq<Op>, all: seq<Op>)
    requires first <= all && LegalRun(cfg, s, all)
    ensures LegalRun(cfg, RunOps(cfg, s, first), all[|first|..])
    ensures RunOps(cfg, RunOps(cfg, s, first), all[|first|..]) == RunOps(cfg, s, all)
  {
    assert all == first + all[|first|..];
    RunConcat(cfg, s, first, all[|first|..]);
    LegalSuffix(cfg, s, first, all[|first|..]);
  }

  // ---- Invariants of the row ------------------------------------------------

  ghost predicate RowInv(cfg: Config, row: Row) {
    && !row.status.Processing?
    && (row.status.Created? ==>
          forall s :: s in cfg.policy.steps && !Hidden(s) ==> StatusOf(row.checks, s).Pending?)
    && (row.status.Verified? || row.status.Rejected? || row.status.InReview? ==> row.completedAt.Some?)
    && (row.completedAt.Some? ==> Terminal(row.status))
  }

  /** A freshly created session is waiting on every step: deciding it keeps it open. */
  lemma AllPendingStaysOpen(cfg: Config, row: Row)
    requires Decidable(cfg.policy)
    requires forall s :: s in cfg.policy.steps && !Hidden(s) ==> StatusOf(row.checks, s).Pending?
    ensures Decide(cfg.policy, cfg.thresholds, row.checks, row.internal).status.InProgress?
  {
    DecideMeaning(cfg.policy, cfg.thresholds, row.checks, row.internal);
    var s :| s in cfg.policy.steps && !Hidden(s);
    assert StatusOf(row.checks, s).Pending?;
  }

  lemma CreateKeepsInv(cfg: Config, now: int, ttl: int)
    ensures RowInv(cfg, CreateRow(cfg.policy, now, ttl))
  {
  }

  lemma EvaluateKeepsInv(cfg: Config, row: Row, now: int)
    requires Decidable(cfg.policy) && RowInv(cfg, row)
    ensures RowInv(cfg, EvaluateEffect(cfg, row, now).row)
  {
    DecideMeaning(cfg.policy, cfg.thresholds, row.checks, row.internal);
    if row.status.Created? {
      AllPendingStaysOpen(cfg, row);
    }
  }

  lemma ApplyKeepsInv(cfg: Config, row: Row, op: Op)
    requires Decidable(cfg.policy) && RowInv(cfg, row) && Legal(row, op)
    ensures RowInv(cfg, Apply(cfg, row, op).row)
  {
    if op.Evaluate? {
      EvaluateKeepsInv(cfg, row, op.now);
    }
  }

  // ---- What the audit entries of a run say ----------------------------------

  /** The status an auditor rebuilds from the recorded entries alone. */
  function Replay(entries: seq<Entry>): Option<SessionStatus> {
    if entries == [] then None
    else
      match entries[|entries| - 1].payload
      case DecisionFields(status, _, _, _) => Some(status)
      case OverrideFields(_, target, _) => Some(target)
      case ExpiryFields(_) => Some(Expired)
      case _ => Replay(entries[..|entries| - 1])
  }

  function CountDecisions(entries: seq<Entry>): nat {
    if entries == [] then 0
    else
      CountDecisions(entries[..|entries| - 1])
      + (if entries[|entries| - 1].eventType.KycDecision? then 1 else 0)
  }

  /** Each entry agrees with the history recorded before it. */
  ghost predicate EntryConsistent(before: seq<Entry>, e: Entry) {
    && (e.payload.DecisionFields? <==> e.eventType.KycDecision?)
    && (e.payload.DecisionFields? ==> Replay(before).None? && CountDecisions(before) == 0)
    && (e.payload.BlockedFields? <==> e.eventType.DecisionBlocked?)
    && (e.payload.BlockedFields? ==>
          Terminal(e.payload.current) && Replay(before) == Some(e.payload.current)
          && e.payload.attempted != e.payload.current)
    && (e.payload.OverrideFields? ==>
          && Terminal(e.payload.target)
          && (if Terminal(e.payload.previous) then Replay(before) == Some(e.payload.previous)
              else Replay(before).None?))
    && (e.payload.ExpiryFields? ==> Replay(before).None?)
    && !e.payload.OtherFields?
  }

  ghost predicate Consistent(entries: seq<Entry>) {
    forall i :: 0 <= i < |entries| ==> EntryConsistent(entries[..i], entries[i])
  }

  ghost predicate SerialInv(cfg: Config, s: Serial) {
    && RowInv(cfg, s.row)
    && Consistent(s.entries)
    && Replay(s.entries) == (if Terminal(s.row.status) then Some(s.row.status) else None)
    && CountDecisions(s.entries) <= 1
    && (CountDecisions(s.entries) == 1 ==> s.row.completedAt.Some?)
  }

  lemma {:induction false} ConsistentAppend(entries: seq<Entry>, e: Entry)
    requires Consistent(entries) && EntryConsistent(entries, e)
    ensures Consistent(entries + [e])
    ensures CountDecisions(entries + [e]) == CountDecisions(entries) + (if e.eventType.KycDecision? then 1 else 0)
    ensures Replay(entries + [e]) ==
            match e.payload
            case DecisionFields(status, _, _, _) => Some(status)
            case OverrideFields(_, target, _) => Some(target)
            case ExpiryFields(_) => Some(Expired)
            case _ => Replay(entries)
  {
    var longer := entries + [e];
    assert longer[..|entries|] == entries;
    forall i | 0 <= i < |longer| ensures EntryConsistent(longer[..i], longer[i]) {
      if i < |entries| {
        assert longer[..i] == entries[..i];
      }
    }
  }

  lemma EvaluateKeepsSerialInv(cfg: Config, s: Serial, now: int)
    requires Decidable(cfg.policy) && SerialInv(cfg, s)
    ensures SerialInv(cfg, RunOp(cfg, s, Evaluate(now)))
  {
    DecideMeaning(cfg.policy, cfg.thresholds, s.row.checks, s.row.internal);
    EvaluateKeepsInv(cfg, s.row, now);
    if s.row.status.Created? {
      AllPendingStaysOpen(cfg, s.row);
    }
    var effect := EvaluateEffect(cfg, s.row, now);
    if effect.entries == [] {
      assert s.entries + effect.entries == s.entries;
    } else {
      ConsistentAppend(s.entries, effect.entries[0]);
    }
  }

  lemma RunOpKeepsInv(cfg: Config, s: Serial, op: Op)
    requires Decidable(cfg.policy) && SerialInv(cfg, s) && Legal(s.row, op)
    ensures SerialInv(cfg, RunOp(cfg, s, op))
  {
    ApplyKeepsInv(cfg, s.row, op);
    if op.Evaluate? {
      EvaluateKeepsSerialInv(cfg, s, op.now);
    } else {
      var effect := Apply(cfg, s.row, op);
      if effect.entries == [] {
        assert s.entries + effect.entries == s.entries;
      } else {
        ConsistentAppend(s.entries, effect.entries[0]);
      }
    }
  }

  /**
   Over every run: the row invariants hold, at most one KYC_DECISION is recorded,
   DECISION_BLOCKED only at a terminal status, and the entries rebuild the status.
   */
  lemma {:induction false} EveryRunKeepsInv(cfg: Config, start: Serial, ops: seq<Op>)
    requires Decidable(cfg.policy) && SerialInv(cfg, start)
    requires LegalRun(cfg, start, ops)
    ensures SerialInv(cfg, RunOps(cfg, start, ops))
  {
    if ops != [] {
      var n := |ops| - 1;
      LegalPrefix(cfg, start, ops, n);
      EveryRunKeepsInv(cfg, start, ops[..n]);
      RunOpKeepsInv(cfg, RunOps(cfg, start, ops[..n]), ops[n]);
    }
  }

  lemma StartInv(cfg: Config, now: int, ttl: int)
    ensures SerialInv(cfg, Start(cfg.policy, now, ttl))
  {
    CreateKeepsInv(cfg, now, ttl);
  }

  // ---- Terminal statuses ----------------------------------------------------

  /** Only an override moves a session out of a terminal status. */
  lemma {:induction false} TerminalSticks(cfg: Config, s: Serial, ops: seq<Op>)
    requires Terminal(s.row.status)
    requires forall op :: op in ops ==> !op.Override?
    ensures RunOps(cfg, s, ops).row.status == s.row.status
  {
    if ops != [] {
      TerminalSticks(cfg, s, ops[..|ops| - 1]);
      assert ops[|ops| - 1] in ops;
    }
  }

  lemma StepStaysTerminal(cfg: Config, row: Row, op: Op)
    requires Terminal(row.status) && Legal(row, op)
    ensures Terminal(Apply(cfg, row, op).row.status)
  {
  }

  /** An override may change a terminal status, but only to a terminal one. */
  lemma {:induction false} TerminalStaysTerminal(cfg: Config, s: Serial, ops: seq<Op>)
    requires Terminal(s.row.status) && LegalRun(cfg, s, ops)
    ensures Terminal(RunOps(cfg, s, ops).row.status)
  {
    if ops != [] {
      var n := |ops| - 1;
      LegalPrefix(cfg, s, ops, n);
      TerminalStaysTerminal(cfg, s, ops[..n]);
      StepStaysTerminal(cfg, RunOps(cfg, s, ops[..n]).row, ops[n]);
    }
  }

  // ---- Who writes a check ---------------------------------------------------

  function LastWrite(ops: seq<Op>, step: Step): Option<CheckStatus> {
    if ops == [] then None
    else
      var last := ops[|ops| - 1];
      if last.SetCheck? && last.step == step then Some(last.status) else LastWrite(ops[..|ops| - 1], step)
  }

  /** A check holds what the last operation on that very step wrote, else its first value. */
  lemma {:induction false} CheckIsLastWrite(cfg: Config, s: Serial, ops: seq<Op>, step: Step)
    ensures StatusOf(RunOps(cfg, s, ops).row.checks, step) ==
            LastWrite(ops, step).GetOr(StatusOf(s.row.checks, step))
  {
    if ops != [] {
      CheckIsLastWrite(cfg, s, ops[..|ops| - 1], step);
    }
  }

  function DataOf(internal: Internal, step: Step): Option<StepData> {
    if step in internal.steps then Some(internal.steps[step]) else None
  }

  /** What the last operation that touches a step's payload leaves there: a purge leaves nothing. */
  function LastData(ops: seq<Op>, step: Step): Option<Option<StepData>> {
    if ops == [] then None
    else
      var last := ops[|ops| - 1];
      if last.SetCheck? && last.step == step && last.data.Some? then Some(last.data)
      else if last.Purge? then Some(None)
      else LastData(ops[..|ops| - 1], step)
  }

  /** A step's internal payload is the one last merged for that very step, unless purged since. */
  lemma {:induction false} DataIsLastWrite(cfg: Config, s: Serial, ops: seq<Op>, step: Step)
    ensures DataOf(RunOps(cfg, s, ops).row.internal, step) ==
            LastData(ops, step).GetOr(DataOf(s.row.internal, step))
  {
    if ops != [] {
      DataIsLastWrite(cfg, s, ops[..|ops| - 1], step);
    }
  }

  // ---- Announcements --------------------------------------------------------

  function Visited(cfg: Config, s: Serial, ops: seq<Op>): set<SessionStatus> {
    if ops == [] then {s.row.status}
    else Visited(cfg, s, ops[..|ops| - 1]) + {RunOps(cfg, s, ops).row.status}
  }

  ghost predicate AnnouncesExactly(cfg: Config, announced: seq<WebhookEvent>, visited: set<SessionStatus>) {
    && (forall i, j :: 0 <= i < j < |announced| ==> announced[i] != announced[j])
    && (forall status :: status in visited && Terminal(status) && cfg.hasUrl ==> EventOf(status).value in announced)
    && (forall event :: event in announced ==>
                          cfg.hasUrl && exists status :: status in visited && EventOf(status) == Some(event))
  }

  /**
   For a tenant with a URL the queue holds one row for each terminal status the
   session ever had and nothing else; without a URL it stays empty.
   */
  lemma {:induction false} OneRowPerTerminalStatus(cfg: Config, s: Serial, ops: seq<Op>)
    requires Decidable(cfg.policy) && SerialInv(cfg, s) && LegalRun(cfg, s, ops)
    requires !Terminal(s.row.status) && s.announced == []
    ensures AnnouncesExactly(cfg, RunOps(cfg, s, ops).announced, Visited(cfg, s, ops))
  {
    if ops != [] {
      var n := |ops| - 1;
      LegalPrefix(cfg, s, ops, n);
      OneRowPerTerminalStatus(cfg, s, ops[..n]);
      EveryRunKeepsInv(cfg, s, ops[..n]);
      var before := RunOps(cfg, s, ops[..n]);
      VisitedHasCurrent(cfg, s, ops[..n]);
      NotifiesOnEntry(cfg, before.row, ops[n]);
      AnnounceStep(cfg, before, ops[n], Visited(cfg, s, ops[..n]));
    }
  }

  lemma {:induction false} VisitedHasCurrent(cfg: Config, s: Serial, ops: seq<Op>)
    ensures RunOps(cfg, s, ops).row.status in Visited(cfg, s, ops)
  {
  }

  /** An operation queues a webhook exactly when it changes the status to a terminal one. */
  lemma NotifiesOnEntry(cfg: Config, row: Row, op: Op)
    requires Legal(row, op)
    ensures var effect := Apply(cfg, row, op);
            effect.notify <==> Terminal(effect.row.status) && effect.row.status != row.status
  {
    DecideMeaning(cfg.policy, cfg.thresholds, row.checks, row.internal);
  }

  /**
   How far notifications mirror the stored status: an operation that enters a terminal
   status leaves that status's event as the last one announced exactly when it had not
   been announced before, or was the last one already.
   */
  lemma MirrorsExactly(cfg: Config, s: Serial, op: Op)
    requires cfg.hasUrl && Legal(s.row, op)
    requires var status := Apply(cfg, s.row, op).row.status; Terminal(status) && status != s.row.status
    ensures var after := RunOp(cfg, s, op);
            var event := EventOf(after.row.status).value;
            && after.announced != []
            && (after.announced[|after.announced| - 1] == event <==>
                event !in s.announced || s.announced[|s.announced| - 1] == event)
  {
    NotifiesOnEntry(cfg, s.row, op);
  }

  /** It does not in general: overridden away and back, a session is VERIFIED and last announced REJECTED. */
  lemma {:induction false} OverrideBackIsSilent(cfg: Config, s: Serial, reason: string, actor: string, now: int)
    requires cfg.hasUrl && !Terminal(s.row.status) && s.announced == []
    ensures var ops := [Override(Verified, reason, actor, now), Override(Rejected, reason, actor, now),
                        Override(Verified, reason, actor, now)];
            && LegalRun(cfg, s, ops)
            && RunOps(cfg, s, ops).row.status == Verified
            && RunOps(cfg, s, ops).announced == [KycVerified, KycRejected]
  {
    var accept, reject := Override(Verified, reason, actor, now), Override(Rejected, reason, actor, now);
    var one := RunOp(cfg, s, accept);
    var two := RunOp(cfg, one, reject);
    assert one.announced == [KycVerified] && two.announced == [KycVerified, KycRejected];
    ThreeOps(cfg, s, accept, reject, accept);
  }

  lemma {:induction false} ThreeOps(cfg: Config, s: Serial, a: Op, b: Op, c: Op)
    requires Legal(s.row, a)
    requires Legal(RunOp(cfg, s, a).row, b) && Legal(RunOp(cfg, RunOp(cfg, s, a), b).row, c)
    ensures LegalRun(cfg, s, [a, b, c])
    ensures RunOps(cfg, s, [a, b, c]) == RunOp(cfg, RunOp(cfg, RunOp(cfg, s, a), b), c)
  {
    RunSnoc(cfg, s, [], a);
    RunSnoc(cfg, s, [a], b);
    RunSnoc(cfg, s, [a, b], c);
    assert [] + [a] == [a] && [a] + [b] == [a, b] && [a, b] + [c] == [a, b, c];
  }

  lemma AnnounceStep(cfg: Config, before: Serial, op: Op, visited: set<SessionStatus>)
    requires before.row.status in visited
    requires AnnouncesExactly(cfg, before.announced, visited)
    requires var effect := Apply(cfg, before.row, op);
             effect.notify <==> Terminal(effect.row.status) && effect.row.status != before.row.status
    ensures var after := RunOp(cfg, before, op);
            AnnouncesExactly(cfg, after.announced, visited + {after.row.status})
  {
    var after := RunOp(cfg, before, op);
    var status := after.row.status;
    forall event | event in after.announced
      ensures cfg.hasUrl && exists st :: st in visited + {status} && EventOf(st) == Some(event)
    {
      if event in before.announced {
        var st :| st in visited && EventOf(st) == Some(event);
        assert st in visited + {status};
      } else {
        assert status in visited + {status} && EventOf(status) == Some(event);
      }
    }
  }

  // ---- The session as the source updates it ---------------------------------

  function EntriesOf(events: seq<Event>): seq<Entry> {
    seq(|events|, i requires 0 <= i < |events| => events[i].hashed.entry)
  }

  function CreationEntry(json: string): Entry {
    Entry(KycSessionCreated, OtherFields(json), "TENANT", None)
  }

  datatype Creation = UnknownFlow | FlowNotEnabled | Opened(session: Session)

  /** `create_session`: an unknown flow, or one the tenant has not enabled, is refused before any write. */
  method CreateSession(
    allowedFlows: seq<string>, flow: string, thresholds: Thresholds, hasUrl: bool,
    trail: AuditTrail, json: string, ip: Option<string>, now: int, ttl: int) returns (result: Creation)
    modifies trail
    ensures result.UnknownFlow? <==> PolicyOf(flow).None?
    ensures result.FlowNotEnabled? <==> PolicyOf(flow).Some? && allowedFlows != [] && flow !in allowedFlows
    ensures !result.Opened? ==> trail.events == old(trail.events)
    ensures result.Opened? ==>
              && fresh(result.session) && result.session.Valid() && result.session.trail == trail
              && result.session.cfg == Config(PolicyOf(flow).value, thresholds, hasUrl)
              && result.session.CurrentRow() == CreateRow(PolicyOf(flow).value, now, ttl)
              && result.session.deliveries == []
              && EntriesOf(trail.events) == EntriesOf(old(trail.events)) + [CreationEntry(json)]
  {
    var policy := PolicyOf(flow);
    if policy.None? {
      return UnknownFlow;
    }
    if allowedFlows != [] && flow !in allowedFlows {
      return FlowNotEnabled;
    }
    var session := new Session(Config(policy.value, thresholds, hasUrl), trail, json, ip, now, ttl);
    return Opened(session);
  }

  /** A session row, its audit trail and its queued webhooks, as one transaction sees them. */
  class Session {
    const cfg: Config
    const trail: AuditTrail
    const expiresAt: int
    var status: SessionStatus
    var checks: map<Step, CheckStatus>
    var internal: Internal
    var reasons: seq<Reason>
    var updatedAt: int
    var completedAt: Option<int>
    var deliveries: seq<Delivery>

    ghost predicate Valid()
      reads this
    {
      NoneFailing(deliveries)
    }

    function CurrentRow(): Row
      reads this
    {
      Row(status, checks, internal, reasons, updatedAt, expiresAt, completedAt)
    }

    function View(): Serial
      reads this, trail
    {
      Serial(CurrentRow(), EntriesOf(trail.events), Names(deliveries))
    }

    ghost predicate Recorded(was: seq<Event>)
      reads trail
    {
      was <= trail.events && (ValidChain(trail.hash, was) ==> ValidChain(trail.hash, trail.events))
    }

    /** The row and its creation event, the first of its trail. */
    constructor (cfg: Config, trail: AuditTrail, json: string, ip: Option<string>, now: int, ttl: int)
      modifies trail
      ensures Valid() && this.cfg == cfg && this.trail == trail
      ensures CurrentRow() == CreateRow(cfg.policy, now, ttl) && deliveries == []
      ensures trail.events == old(trail.events)
                + [NextEvent(trail.hash, Last(old(trail.events)), CreationEntry(json), trail.scope, now, ip, None)]
      ensures ValidChain(trail.hash, old(trail.events)) ==> ValidChain(trail.hash, trail.events)
    {
      this.cfg := cfg;
      this.trail := trail;
      this.expiresAt := now + ttl;
      status := Created;
      checks := map s | s in DecidableSteps(cfg.policy) :: Pending;
      internal := EMPTY_INTERNAL;
      reasons := [];
      updatedAt := now;
      completedAt := None;
      deliveries := [];
      new;
      trail.RecordEvent(CreationEntry(json), now, ip, None);
    }

    method SetCheck(step: Step, checkStatus: CheckStatus, data: Option<StepData>, now: int)
      requires Valid()
      modifies this
      ensures Valid() && View() == RunOp(cfg, old(View()), Op.SetCheck(step, checkStatus, data, now))
    {
      updatedAt := now;
      checks := checks[step := checkStatus];
      if data.Some? {
        internal := internal.(steps := internal.steps[step := data.value]);
      }
      if status.Created? {
        status := InProgress;
      }
      assert EntriesOf(trail.events) + [] == EntriesOf(trail.events);
    }

    method QueueEvent()
      requires Valid()
      modifies this`deliveries
      ensures Valid()
      ensures deliveries == QueueSessionEvent(cfg.hasUrl, old(deliveries), status)
      ensures Names(deliveries) == Announce(cfg.hasUrl, Names(old(deliveries)), status)
    {
      QueueAnnounces(cfg.hasUrl, deliveries, status);
      var event := EventOf(status);
      if event.None? || !cfg.hasUrl {
        return;
      }
      if exists d :: d in deliveries && d.event == event.value && !d.status.Failing? {
        return;
      }
      deliveries := deliveries + [Delivery(event.value, status, Waiting, 0)];
    }

    method Record(eventType: EventType, payload: Payload, actor: string, now: int)
      modifies trail
      ensures Recorded(old(trail.events))
      ensures EntriesOf(trail.events) == EntriesOf(old(trail.events)) + [Entry(eventType, payload, actor, None)]
    {
      trail.RecordEvent(Entry(eventType, payload, actor, None), now, None, None);
    }

    method Evaluate(now: int) returns (result: SessionStatus)
      requires Valid()
      modifies this, trail
      ensures Valid() && Recorded(old(trail.events))
      ensures View() == RunOp(cfg, old(View()), Op.Evaluate(now))
      ensures result == status
    {
      var decision := Decide(cfg.policy, cfg.thresholds, checks, internal);
      if !TransitionAllowed(status, decision.status) {
        updatedAt := now;
        Record(DecisionBlocked, BlockedFields(status, decision.status, decision.reasons), SYSTEM, now);
        return status;
      }
      Accept(decision, now);
      return decision.status;
    }

    /** The rest of `evaluate`, once the transition is allowed. */
    method Accept(decision: Decision, now: int)
      requires Valid() && (decision.completed ==> Terminal(decision.status))
      modifies this, trail
      ensures Valid() && Recorded(old(trail.events)) && status == decision.status
      ensures View() == WithEffect(cfg.hasUrl, old(View()), DecidedEffect(old(CurrentRow()), decision, now))
    {
      ghost var was := View();
      var previous := status;
      updatedAt := now;
      status := decision.status;
      reasons := if decision.completed then decision.reasons else [];
      internal := internal.(risk := Some(Risk(decision.score, decision.level)));
      if decision.completed && completedAt.None? {
        completedAt := Some(now);
        Record(KycDecision,
               DecisionFields(decision.status, decision.reasons, Hundredths(decision.score), decision.level), SYSTEM, now);
      } else {
        assert was.entries + [] == was.entries;
      }
      if decision.completed && previous != decision.status {
        QueueEvent();
      }
    }

    /** `false` stands for the source's ValueError, raised before anything is locked or written. */
    method OverrideDecision(target: SessionStatus, reason: string, actor: string, now: int) returns (ok: bool)
      requires Valid()
      modifies this, trail
      ensures Valid() && Recorded(old(trail.events))
      ensures ok <==> Terminal(target)
      ensures View() == if ok then RunOp(cfg, old(View()), Op.Override(target, reason, actor, now)) else old(View())
    {
      if !Terminal(target) {
        return false;
      }
      var previous := status;
      status := target;
      if completedAt.None? {
        completedAt := Some(now);
      }
      updatedAt := now;
      Record(DecisionOverridden, OverrideFields(previous, target, reason), actor, now);
      if previous != target {
        QueueEvent();
      }
      return true;
    }

    method Expire(now: int)
      requires Valid()
      modifies this, trail
      ensures Valid() && Recorded(old(trail.events))
      ensures View() == RunOp(cfg, old(View()), Op.Expire(now))
      ensures expiresAt <= now ==> Terminal(status)
    {
      updatedAt := now;
      if Terminal(status) || expiresAt > now {
        assert EntriesOf(trail.events) + [] == EntriesOf(trail.events);
        return;
      }
      status := Expired;
      Record(SessionExpired, ExpiryFields(expiresAt), SYSTEM, now);
      QueueEvent();
    }

    method MarkRequeued(sighting: Sighting, now: int)
      requires Valid()
      modifies this
      ensures Valid() && View() == RunOp(cfg, old(View()), Op.MarkRequeued(sighting, now))
    {
      updatedAt := now;
      internal := internal.(reconciledAt := Some(sighting.at));
      assert EntriesOf(trail.events) + [] == EntriesOf(trail.events);
    }
  }
}
