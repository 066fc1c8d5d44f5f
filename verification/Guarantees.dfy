/** What every interleaving of workers leaves committed. */
module Guarantees {
  import opened Enums
  import opened Policy
  import opened Decision
  import opened Audit
  import opened Webhooks
  import opened Kyc
  import opened Protocol
  import opened Scan
  import Confidence
  import Tasks

  function Final(states: seq<State>): State
    requires states != []
  {
    states[|states| - 1]
  }

  /**
   No lost update.  The committed row, decision events and webhook rows are those
   of the committed operations run one after the other, transactions taken in the
   order in which they acquired the row lock.
   */
  lemma CommittedStateIsSerial(m: Model, states: seq<State>, moves: seq<Move>)
    requires IsRun(m, states, moves)
    ensures var db := Final(states).db;
            && LegalRun(m.cfg, StartOf(m), Committed(db))
            && RunOps(m.cfg, StartOf(m), Committed(db))
               == Serial(db.row, Decisive(EntriesOf(ListEvents(db.table))), Names(db.deliveries))
            && (forall i, j :: 0 <= i < j < |db.log| ==> db.log[i].ticket < db.log[j].ticket)
  {
    RunKeepsInv(m, states, moves);
  }

  /** Appending without a lock still leaves one linear chain, numbered 1..n, that verifies. */
  lemma ConcurrentAppendsFormOneChain(m: Model, states: seq<State>, moves: seq<Move>)
    requires IsRun(m, states, moves)
    ensures var db := Final(states).db;
            && (forall k :: k in db.table <==> 1 <= k <= |ListEvents(db.table)|)
            && (forall k :: k in db.table ==> ListEvents(db.table)[k - 1] == db.table[k])
            && ValidChain(m.hash, ListEvents(db.table))
  {
    RunKeepsInv(m, states, moves);
    var db := Final(states).db;
    forall k | k in db.table ensures ListEvents(db.table)[k - 1] == db.table[k] {
      assert db.table[1 + (k - 1)] == Chain(db)[k - 1];
    }
  }

  /** The session invariants, in every committed state of every run. */
  lemma CommittedSessionIsSound(m: Model, states: seq<State>, moves: seq<Move>)
    requires IsRun(m, states, moves) && Decidable(m.cfg.policy)
    ensures var db := Final(states).db;
            var decided := Decisive(EntriesOf(ListEvents(db.table)));
            && RowInv(m.cfg, db.row)
            && CountDecisions(decided) <= 1
            && Consistent(decided)
            && Replay(decided) == (if Terminal(db.row.status) then Some(db.row.status) else None)
  {
    RunKeepsInv(m, states, moves);
    var db := Final(states).db;
    StartInv(m.cfg, m.createdAt, m.ttl);
    EveryRunKeepsInv(m.cfg, StartOf(m), Committed(db));
  }

  /** Committed webhook rows: one per terminal status ever committed or passed through, none failing. */
  lemma CommittedWebhooksAreExact(m: Model, states: seq<State>, moves: seq<Move>)
    requires IsRun(m, states, moves) && Decidable(m.cfg.policy)
    ensures var db := Final(states).db;
            && AnnouncesExactly(m.cfg, Names(db.deliveries), Visited(m.cfg, StartOf(m), Committed(db)))
            && DeliveriesOk(db.deliveries)
  {
    RunKeepsInv(m, states, moves);
    StartInv(m.cfg, m.createdAt, m.ttl);
    OneRowPerTerminalStatus(m.cfg, StartOf(m), Committed(Final(states).db));
  }

  // ---- Two points of one run ------------------------------------------------

  lemma {:induction false} LogGrows(m: Model, states: seq<State>, moves: seq<Move>, i: nat, j: nat)
    requires IsRun(m, states, moves) && i <= j < |states|
    ensures Committed(states[i].db) <= Committed(states[j].db)
    decreases j - i
  {
    if i < j {
      LogGrows(m, states, moves, i, j - 1);
      assert states[j - 1 + 1] == After(m, states[j - 1], moves[j - 1]);
    }
  }

  lemma PrefixRun(m: Model, states: seq<State>, moves: seq<Move>, i: nat)
    requires IsRun(m, states, moves) && i < |states|
    ensures IsRun(m, states[..i + 1], moves[..i])
    ensures Inv(m, states[i])
  {
    RunKeepsInv(m, states[..i + 1], moves[..i]);
  }

  /** The operations committed between two points of a run. */
  function Between(states: seq<State>, i: nat, j: nat): seq<Op>
    requires i <= j < |states| && Committed(states[i].db) <= Committed(states[j].db)
  {
    Committed(states[j].db)[|Committed(states[i].db)|..]
  }

  lemma CommittedRun(m: Model, states: seq<State>, moves: seq<Move>, i: nat)
    requires IsRun(m, states, moves) && i < |states|
    ensures LegalRun(m.cfg, StartOf(m), Committed(states[i].db))
    ensures RunOps(m.cfg, StartOf(m), Committed(states[i].db)).row == states[i].db.row
  {
    PrefixRun(m, states, moves, i);
  }

  lemma BetweenIsRun(m: Model, states: seq<State>, moves: seq<Move>, i: nat, j: nat)
    requires IsRun(m, states, moves) && i <= j < |states|
    ensures Committed(states[i].db) <= Committed(states[j].db)
    ensures var here := RunOps(m.cfg, StartOf(m), Committed(states[i].db));
            && here.row == states[i].db.row
            && LegalRun(m.cfg, here, Between(states, i, j))
            && RunOps(m.cfg, here, Between(states, i, j)).row == states[j].db.row
  {
    LogGrows(m, states, moves, i, j);
    CommittedRun(m, states, moves, i);
    CommittedRun(m, states, moves, j);
    ContinueRun(m.cfg, StartOf(m), Committed(states[i].db), Committed(states[j].db));
  }

  /** A committed check changes only through a later committed write of that very step. */
  lemma {:induction false} CheckChangesOnlyByItsWriter(
    m: Model, states: seq<State>, moves: seq<Move>, i: nat, j: nat, step: Step)
    requires IsRun(m, states, moves) && i <= j < |states|
    ensures Committed(states[i].db) <= Committed(states[j].db)
    ensures StatusOf(states[j].db.row.checks, step)
         == LastWrite(Between(states, i, j), step).GetOr(StatusOf(states[i].db.row.checks, step))
  {
    BetweenIsRun(m, states, moves, i, j);
    CheckIsLastWrite(m.cfg, RunOps(m.cfg, StartOf(m), Committed(states[i].db)), Between(states, i, j), step);
  }

  /** The same for the step's internal payload: only its own writer and the purge touch it. */
  lemma {:induction false} DataChangesOnlyByItsWriter(
    m: Model, states: seq<State>, moves: seq<Move>, i: nat, j: nat, step: Step)
    requires IsRun(m, states, moves) && i <= j < |states|
    ensures Committed(states[i].db) <= Committed(states[j].db)
    ensures DataOf(states[j].db.row.internal, step)
         == LastData(Between(states, i, j), step).GetOr(DataOf(states[i].db.row.internal, step))
  {
    BetweenIsRun(m, states, moves, i, j);
    DataIsLastWrite(m.cfg, RunOps(m.cfg, StartOf(m), Committed(states[i].db)), Between(states, i, j), step);
  }

  /** Once committed terminal, a status stays terminal, and changes only if an override commits. */
  lemma TerminalChangesOnlyByOverride(m: Model, states: seq<State>, moves: seq<Move>, i: nat, j: nat)
    requires IsRun(m, states, moves) && i <= j < |states|
    requires Terminal(states[i].db.row.status)
    ensures Committed(states[i].db) <= Committed(states[j].db)
    ensures Terminal(states[j].db.row.status)
    ensures states[j].db.row.status != states[i].db.row.status ==>
              exists op :: op in Between(states, i, j) && op.Override?
  {
    BetweenIsRun(m, states, moves, i, j);
    var here := RunOps(m.cfg, StartOf(m), Committed(states[i].db));
    TerminalStaysTerminal(m.cfg, here, Between(states, i, j));
    if forall op :: op in Between(states, i, j) ==> !op.Override? {
      TerminalSticks(m.cfg, here, Between(states, i, j));
    }
  }

  // ---- The throttle of the sweep --------------------------------------------

  /**
   A requeue is at least `stuck` later than the last one that its unlocked scan saw
   committed, however the sweeps interleave.
   */
  lemma SeenRequeuesAreApart(m: Model, states: seq<State>, moves: seq<Move>, h: nat, q: nat)
    requires IsRun(m, states, moves)
    requires var log := Committed(Final(states).db);
             && h < q < |log| && log[h].MarkRequeued? && log[q].MarkRequeued?
             && h < log[q].sighting.seen
             && forall i :: h < i < |log| && i < log[q].sighting.seen ==> !log[i].MarkRequeued?
    ensures var log := Committed(Final(states).db);
            log[q].sighting.at >= log[h].sighting.at + m.stuck
  {
    RunKeepsInv(m, states, moves);
    SeenRequeueIsApart(m.cfg, StartOf(m), Committed(Final(states).db), m.stuck, h, q);
  }

  /** If each sweep scans only after the earlier ones have committed, any two requeues are at least `stuck` apart. */
  lemma SweepsWithoutOverlapAreApart(m: Model, states: seq<State>, moves: seq<Move>, h: nat, q: nat)
    requires IsRun(m, states, moves) && NoOverlap(Committed(Final(states).db))
    requires var log := Committed(Final(states).db);
             h < q < |log| && log[h].MarkRequeued? && log[q].MarkRequeued?
    ensures var log := Committed(Final(states).db);
            log[q].sighting.at >= log[h].sighting.at + m.stuck
  {
    RunKeepsInv(m, states, moves);
    RequeuesAreApart(m.cfg, StartOf(m), Committed(Final(states).db), m.stuck, h, q);
  }

  // ---- Checks that tasks write ----------------------------------------------

  /** Every committed transaction is one execution, decided on what the first `seen` of them had led to. */
  ghost predicate Performs(m: Model, log: seq<Batch>, runs: seq<Tasks.Execution>) {
    && |runs| == |log|
    && forall k :: 0 <= k < |log| ==> PerformsAt(m, log, runs, k)
  }

  ghost predicate PerformsAt(m: Model, log: seq<Batch>, runs: seq<Tasks.Execution>, k: nat)
    requires k < |runs| == |log|
  {
    log[k].ops == OpsOf(m, log[..k], runs[k])
  }

  function OpsOf(m: Model, log: seq<Batch>, run: Tasks.Execution): seq<Op> {
    var seen := if run.seen < |log| then log[..run.seen] else log;
    Tasks.TaskOps(m.cfg.policy, RunOps(m.cfg, StartOf(m), Flat(seen)).row, run.task)
  }

  lemma {:induction false} PerformedOps(m: Model, log: seq<Batch>, runs: seq<Tasks.Execution>, run: Tasks.Execution)
    requires |runs| == |log|
    requires var seen := if run.seen < |log| then run.seen else |log|;
             Flat(log[..seen]) == Tasks.TaskLog(m.cfg, StartOf(m), runs[..seen])
    ensures OpsOf(m, log, run)
         == Tasks.TaskOps(m.cfg.policy, Tasks.SeenRow(m.cfg, StartOf(m), runs, run.seen), run.task)
  {
    if run.seen >= |log| {
      assert log[..|log|] == log && runs[..|log|] == runs;
    }
  }

  lemma OneMore<T>(s: seq<T>, k: nat)
    requires k < |s|
    ensures s[..k + 1] == s[..k] + [s[k]]
  {
  }

  lemma {:induction false} PerformedStep(
    m: Model, log: seq<Batch>, runs: seq<Tasks.Execution>, batch: Batch, run: Tasks.Execution)
    requires |runs| == |log| && batch.ops == OpsOf(m, log, run)
    requires Flat(log) == Tasks.TaskLog(m.cfg, StartOf(m), runs)
    requires var seen := if run.seen < |log| then run.seen else |log|;
             Flat(log[..seen]) == Tasks.TaskLog(m.cfg, StartOf(m), runs[..seen])
    ensures Flat(log + [batch]) == Tasks.TaskLog(m.cfg, StartOf(m), runs + [run])
  {
    PerformedOps(m, log, runs, run);
    Tasks.TaskLogSnoc(m.cfg, StartOf(m), runs, run);
    assert (log + [batch])[..|log|] == log;
  }

  lemma {:induction false} PerformedLog(m: Model, log: seq<Batch>, runs: seq<Tasks.Execution>, n: nat)
    requires Performs(m, log, runs) && n <= |log|
    ensures Flat(log[..n]) == Tasks.TaskLog(m.cfg, StartOf(m), runs[..n])
    decreases n
  {
    if n == 0 {
      assert log[..n] == [] && runs[..n] == [];
    } else {
      var k := n - 1;
      var seen := if runs[k].seen < k then runs[k].seen else k;
      PerformedLog(m, log, runs, k);
      PerformedLog(m, log, runs, seen);
      assert log[..k][..seen] == log[..seen] && runs[..k][..seen] == runs[..seen];
      assert PerformsAt(m, log, runs, k);
      PerformedStep(m, log[..k], runs[..k], log[k], runs[k]);
      OneMore(log, k);
      OneMore(runs, k);
    }
  }

  lemma StartIsUntouched(m: Model)
    requires m.cfg.policy.Requires(FaceMatch) ==> m.cfg.policy.Requires(Liveness)
    ensures Tasks.Untouched(m.cfg, StartOf(m))
  {
  }

  lemma {:induction false} NoWriteNoLast(ops: seq<Op>, step: Step)
    ensures Tasks.Writes(ops, step) == 0 <==> LastWrite(ops, step).None?
  {
    if ops != [] {
      NoWriteNoLast(ops[..|ops| - 1], step);
    }
  }

  lemma {:induction false} WrittenOnceExactly(m: Model, db: Database, runs: seq<Tasks.Execution>, step: Step)
    requires Tasks.Processed(step)
    requires m.cfg.policy.Requires(FaceMatch) ==> m.cfg.policy.Requires(Liveness)
    requires Performs(m, db.log, runs) && Tasks.AllDispatched(runs)
    ensures Tasks.Writes(Committed(db), step) <= 1 <==> Tasks.WritersSeen(m.cfg, StartOf(m), runs, |runs|, step)
  {
    PerformedLog(m, db.log, runs, |runs|);
    assert db.log[..|runs|] == db.log && runs[..|runs|] == runs;
    StartIsUntouched(m);
    Tasks.AppliedOnceExactly(m.cfg, StartOf(m), runs, step);
  }

  /**
   Over every run whose transactions are executions of tasks: if each execution that
   handles a step had seen every earlier one that wrote it, a committed check that is
   decided stays as it is; otherwise some step is written twice.
   */
  lemma {:induction false} DecidedCheckIsFinal(
    m: Model, states: seq<State>, moves: seq<Move>, runs: seq<Tasks.Execution>, i: nat, j: nat, step: Step)
    requires IsRun(m, states, moves) && i <= j < |states| && Tasks.Processed(step)
    requires m.cfg.policy.Requires(FaceMatch) ==> m.cfg.policy.Requires(Liveness)
    requires Performs(m, states[j].db.log, runs) && Tasks.AllDispatched(runs)
    ensures Tasks.Writes(Committed(states[j].db), step) <= 1 <==>
            Tasks.WritersSeen(m.cfg, StartOf(m), runs, |runs|, step)
    ensures Tasks.WritersSeen(m.cfg, StartOf(m), runs, |runs|, step) && !IsPending(states[i].db.row, step) ==>
              StatusOf(states[j].db.row.checks, step) == StatusOf(states[i].db.row.checks, step)
  {
    var earlier, all := Committed(states[i].db), Committed(states[j].db);
    WrittenOnceExactly(m, states[j].db, runs, step);
    if Tasks.WritersSeen(m.cfg, StartOf(m), runs, |runs|, step) && !IsPending(states[i].db.row, step) {
      CommittedRun(m, states, moves, i);
      CheckIsLastWrite(m.cfg, StartOf(m), earlier, step);
      CheckChangesOnlyByItsWriter(m, states, moves, i, j, step);
      assert all == earlier + Between(states, i, j);
      Tasks.WritesConcat(earlier, Between(states, i, j), step);
      NoWriteNoLast(earlier, step);
      NoWriteNoLast(Between(states, i, j), step);
    }
  }

  // ---- LOW_CONFIDENCE -------------------------------------------------------

  lemma {:induction false} DecisiveKeeps(entries: seq<Entry>, e: Entry)
    requires e in entries && IsDecisive(e)
    ensures e in Decisive(entries)
  {
    var n := |entries| - 1;
    if e != entries[n] {
      DecisiveKeeps(entries[..n], e);
    }
  }

  /** While every operation is one the engines make, no committed decision, taken or blocked, names LOW_CONFIDENCE. */
  lemma NoCommittedLowConfidence(m: Model, states: seq<State>, moves: seq<Move>)
    requires IsRun(m, states, moves) && Decidable(m.cfg.policy) && m.cfg.thresholds == DEFAULT_THRESHOLDS
    requires forall op :: op in Committed(Final(states).db) ==> Confidence.EngineOp(op)
    ensures forall e :: e in EntriesOf(ListEvents(Final(states).db.table))
                        && (e.eventType.KycDecision? || e.eventType.DecisionBlocked?) ==>
                          Confidence.NamesNoLowConfidence(e)
  {
    CommittedStateIsSerial(m, states, moves);
    var entries := EntriesOf(ListEvents(Final(states).db.table));
    Confidence.EngineRunsRecordNone(m.cfg, m.createdAt, m.ttl, Committed(Final(states).db));
    forall e | e in entries && (e.eventType.KycDecision? || e.eventType.DecisionBlocked?)
      ensures Confidence.NamesNoLowConfidence(e)
    {
      DecisiveKeeps(entries, e);
    }
  }

  // ---- The head hash fixes the verdict --------------------------------------

  lemma SameFieldsSameEntries(a: seq<Event>, b: seq<Event>)
    requires HashedFields(a) == HashedFields(b)
    ensures EntriesOf(a) == EntriesOf(b)
  {
    assert |a| == |HashedFields(a)| && |b| == |HashedFields(b)|;
    forall i | 0 <= i < |a| ensures EntriesOf(a)[i] == EntriesOf(b)[i] {
      assert HashedFields(a)[i] == HashedFields(b)[i];
    }
  }

  /**
   Two histories of a session with the same head hash ended in the same verdict,
   unless they exhibit a collision: the audit head alone fixes whether the session is
   decided and how.
   */
  lemma HeadFixesVerdict(
    m: Model, states1: seq<State>, steps1: seq<Move>, states2: seq<State>, steps2: seq<Move>)
    requires Decidable(m.cfg.policy)
    requires IsRun(m, states1, steps1) && IsRun(m, states2, steps2)
    requires Head(ListEvents(Final(states1).db.table)) == Head(ListEvents(Final(states2).db.table))
    ensures var r1, r2 := Final(states1).db.row, Final(states2).db.row;
            || Collision(m.hash, ListEvents(Final(states1).db.table), ListEvents(Final(states2).db.table))
            || ((Terminal(r1.status) <==> Terminal(r2.status)) && (Terminal(r1.status) ==> r1.status == r2.status))
  {
    CommittedSessionIsSound(m, states1, steps1);
    CommittedSessionIsSound(m, states2, steps2);
    ConcurrentAppendsFormOneChain(m, states1, steps1);
    ConcurrentAppendsFormOneChain(m, states2, steps2);
    var a, b := ListEvents(Final(states1).db.table), ListEvents(Final(states2).db.table);
    HeadBindsHistory(m.hash, a, b);
    if HashedFields(a) == HashedFields(b) {
      SameFieldsSameEntries(a, b);
    }
  }

  // ---- Delivery -------------------------------------------------------------

  /** No other task is working on the delivery row that this step fetches. */
  ghost predicate Alone(s: State, move: Move) {
    move.Fetch? ==>
      forall u :: u in s.txs && u != move.t && s.txs[u].delivering.Some? ==>
                    s.txs[u].delivering.value.index != move.index
  }

  ghost predicate DeliveringOk(s: State) {
    && (forall t, u :: t in s.txs && u in s.txs && t != u && s.txs[t].delivering.Some? && s.txs[u].delivering.Some? ==>
                         s.txs[t].delivering.value.index != s.txs[u].delivering.value.index)
    && (forall t :: t in s.txs && s.txs[t].delivering.Some? ==>
                      var i := s.txs[t].delivering.value.index;
                      i < |s.db.deliveries| && s.db.deliveries[i].status.Waiting?)
    && (forall p :: p in s.posts ==> p.statusThen.Waiting?)
  }

  lemma CommitKeepsDelivering(s: State, t: TxId)
    requires t in s.txs && DeliveringOk(s)
    ensures DeliveringOk(Abort(s, t).(db := CommitTo(s.db, s.txs[t])))
  {
  }

  lemma FetchKeepsDelivering(s: State, t: TxId, f: Fetched)
    requires DeliveringOk(s) && t in s.txs && Alone(s, Fetch(t, f.index))
    requires f.index < |s.db.deliveries| && s.db.deliveries[f.index].status.Waiting?
    ensures DeliveringOk(WithTx(s, t, s.txs[t].(delivering := Some(f))))
  {
  }

  lemma PostKeepsDelivering(m: Model, s: State, t: TxId, accepted: bool, report: Entry)
    requires Enabled(m, s, Post(t, accepted, report)) && DeliveringOk(s)
    ensures DeliveringOk(After(m, s, Post(t, accepted, report)))
  {
  }

  lemma FetchMoveKeepsDelivering(m: Model, s: State, t: TxId, index: nat)
    requires DeliveriesOk(s.db.deliveries) && DeliveringOk(s)
    requires Enabled(m, s, Fetch(t, index)) && Alone(s, Fetch(t, index))
    ensures DeliveringOk(After(m, s, Fetch(t, index)))
  {
    var d := s.db.deliveries[index];
    assert d in s.db.deliveries;
    if !d.status.Delivered? {
      FetchKeepsDelivering(s, t, Fetched(index, d.attempts, Untried));
    }
  }

  ghost predicate Spares(s: State, after: State) {
    && after.db == s.db && after.posts == s.posts
    && forall t :: t in after.txs ==>
                     after.txs[t].delivering == if t in s.txs then s.txs[t].delivering else None
  }

  /** Every other move leaves deliveries, posts and the fetched rows as they are. */
  lemma OtherMoveSpares(m: Model, s: State, move: Move)
    requires Enabled(m, s, move)
    requires !move.Fetch? && !move.Post? && !move.Commit?
    ensures Spares(s, After(m, s, move))
  {
  }

  lemma SparedKeepsDelivering(s: State, after: State)
    requires DeliveringOk(s) && Spares(s, after)
    ensures DeliveringOk(after)
  {
  }

  lemma MoveKeepsDelivering(m: Model, s: State, move: Move)
    requires DeliveriesOk(s.db.deliveries)
    requires Enabled(m, s, move) && Alone(s, move) && DeliveringOk(s)
    ensures DeliveringOk(After(m, s, move))
  {
    match move
    case Fetch(t, index) => FetchMoveKeepsDelivering(m, s, t, index);
    case Post(t, accepted, report) => PostKeepsDelivering(m, s, t, accepted, report);
    case Commit(t) => CommitKeepsDelivering(s, t);
    case _ =>
      OtherMoveSpares(m, s, move);
      SparedKeepsDelivering(s, After(m, s, move));
  }

  /** A sufficient discipline: if no two tasks work on one row at a time, no POST follows a committed DELIVERED. */
  lemma {:induction false} NoPostAfterDelivered(m: Model, states: seq<State>, moves: seq<Move>)
    requires IsRun(m, states, moves)
    requires forall i :: 0 <= i < |moves| ==> Alone(states[i], moves[i])
    ensures DeliveringOk(Final(states))
    decreases |moves|
  {
    if moves != [] {
      var n := |moves| - 1;
      PrefixRun(m, states, moves, n);
      NoPostAfterDelivered(m, states[..n + 1], moves[..n]);
      MoveKeepsDelivering(m, states[n], moves[n]);
      assert states[n + 1] == After(m, states[n], moves[n]);
    }
  }

  // ---- Exactly when a POST comes late ---------------------------------------

  ghost predicate DeliveredAt(s: State, i: nat) {
    i < |s.db.deliveries| && s.db.deliveries[i].status.Delivered?
  }

  /** The move commits an accepted attempt on row `i`. */
  ghost predicate Delivers(s: State, move: Move, i: nat) {
    && move.Commit? && move.t in s.txs
    && s.txs[move.t].delivering.Some?
    && s.txs[move.t].delivering.value.index == i && s.txs[move.t].delivering.value.attempt.Accepted?
  }

  lemma CommitDelivers(s: State, t: TxId, i: nat)
    requires t in s.txs && !Raised(s.txs[t]) && i < |s.db.deliveries|
    ensures var after := Abort(s, t).(db := CommitTo(s.db, s.txs[t]));
            && i < |after.db.deliveries|
            && (DeliveredAt(after, i) <==> DeliveredAt(s, i) || Delivers(s, Commit(t), i))
  {
  }

  lemma DeliveredStep(m: Model, s: State, move: Move, i: nat)
    requires Enabled(m, s, move) && i < |s.db.deliveries|
    ensures var after := After(m, s, move);
            && i < |after.db.deliveries|
            && (DeliveredAt(after, i) <==> DeliveredAt(s, i) || Delivers(s, move, i))
  {
    if move.Commit? {
      CommitDelivers(s, move.t, i);
    } else if !move.Fetch? && !move.Post? {
      OtherMoveSpares(m, s, move);
    }
  }

  /** A row becomes DELIVERED exactly by the commit of an accepted attempt on it, and stays so. */
  lemma {:induction false} DeliveredExactly(m: Model, states: seq<State>, moves: seq<Move>, i: nat, a: nat, b: nat)
    requires IsRun(m, states, moves) && a <= b < |states| && i < |states[a].db.deliveries|
    ensures i < |states[b].db.deliveries|
    ensures DeliveredAt(states[b], i) <==>
            DeliveredAt(states[a], i) || exists k :: a <= k < b && Delivers(states[k], moves[k], i)
    decreases b
  {
    if a < b {
      var n := b - 1;
      DeliveredExactly(m, states, moves, i, a, n);
      DeliveredStep(m, states[n], moves[n], i);
      assert states[n + 1] == After(m, states[n], moves[n]);
    }
  }

  /** A fetched row comes from the transaction's own fetch, which found it not DELIVERED. */
  lemma DeliveringFrom(m: Model, s: State, move: Move, t: TxId)
    requires Enabled(m, s, move)
    requires t in After(m, s, move).txs && After(m, s, move).txs[t].delivering.Some?
    ensures var i := After(m, s, move).txs[t].delivering.value.index;
            || (move == Fetch(t, i) && i < |s.db.deliveries| && !DeliveredAt(s, i))
            || (t in s.txs && s.txs[t].delivering.Some? && s.txs[t].delivering.value.index == i)
  {
    if !move.Fetch? && !move.Post? && !move.Commit? {
      OtherMoveSpares(m, s, move);
    }
  }

  /** Since move `a` the transaction works on the row it fetched then. */
  ghost predicate FetchedAt(states: seq<State>, moves: seq<Move>, t: TxId, i: nat, a: nat, b: nat) {
    && a < b < |states| <= |moves| + 1 && moves[a] == Fetch(t, i)
    && i < |states[a].db.deliveries| && !DeliveredAt(states[a], i)
    && forall k :: a < k <= b ==>
         t in states[k].txs && states[k].txs[t].delivering.Some? && states[k].txs[t].delivering.value.index == i
  }

  lemma {:induction false} FetchOf(m: Model, states: seq<State>, moves: seq<Move>, t: TxId, b: nat) returns (a: nat)
    requires IsRun(m, states, moves) && b < |states|
    requires t in states[b].txs && states[b].txs[t].delivering.Some?
    ensures FetchedAt(states, moves, t, states[b].txs[t].delivering.value.index, a, b)
    decreases b
  {
    assert b > 0;
    var n := b - 1;
    assert states[n + 1] == After(m, states[n], moves[n]);
    DeliveringFrom(m, states[n], moves[n], t);
    var i := states[b].txs[t].delivering.value.index;
    if moves[n] == Fetch(t, i) && !DeliveredAt(states[n], i) && i < |states[n].db.deliveries| {
      a := n;
    } else {
      a := FetchOf(m, states, moves, t, n);
    }
  }

  /**
   Every POST goes back to a fetch of its transaction that found the row not DELIVERED,
   and it comes after a committed DELIVERED exactly if an accepted attempt on that row
   was committed between that fetch and the POST.
   */
  lemma LatePostExactly(m: Model, states: seq<State>, moves: seq<Move>, b: nat) returns (a: nat)
    requires IsRun(m, states, moves) && b < |moves| && moves[b].Post?
    ensures var posts := states[b + 1].posts;
            && posts != []
            && var i := posts[|posts| - 1].index;
               && FetchedAt(states, moves, moves[b].t, i, a, b)
               && (posts[|posts| - 1].statusThen.Delivered? <==>
                   exists k :: a < k < b && Delivers(states[k], moves[k], i))
  {
    var t := moves[b].t;
    assert Enabled(m, states[b], moves[b]) && states[b + 1] == After(m, states[b], moves[b]);
    var i := states[b].txs[t].delivering.value.index;
    a := FetchOf(m, states, moves, t, b);
    DeliveredExactly(m, states, moves, i, a, b);
    assert !Delivers(states[a], moves[a], i);
  }

  // ---- A refused POST -------------------------------------------------------

  lemma RaisedStep(m: Model, s: State, t: TxId, move: Move)
    requires Enabled(m, s, move) && move != Begin(t)
    requires t in s.txs ==> Raised(s.txs[t])
    ensures t in After(m, s, move).txs ==> Raised(After(m, s, move).txs[t])
    ensures move.t == t ==> After(m, s, move).db == s.db
  {
  }

  lemma {:induction false} RaisedStays(m: Model, states: seq<State>, moves: seq<Move>, t: TxId, a: nat, b: nat)
    requires IsRun(m, states, moves) && a <= b < |states|
    requires t in states[a].txs ==> Raised(states[a].txs[t])
    requires forall k :: a <= k < b ==> moves[k] != Begin(t)
    ensures t in states[b].txs ==> Raised(states[b].txs[t])
    ensures forall k :: a <= k < b && moves[k].t == t ==> states[k + 1].db == states[k].db
    decreases b
  {
    if a < b {
      var n := b - 1;
      RaisedStays(m, states, moves, t, a, n);
      RaisedStep(m, states[n], t, moves[n]);
      assert states[n + 1] == After(m, states[n], moves[n]);
    }
  }

  /**
   From a refused POST on, for as long as its transaction is not begun anew, no move of
   that transaction changes anything committed: whatever it has written is rolled back.
   */
  lemma RefusedAttemptIsUndone(m: Model, states: seq<State>, moves: seq<Move>, a: nat, b: nat)
    requires IsRun(m, states, moves) && a < b < |states|
    requires moves[a].Post? && !moves[a].accepted
    requires forall k :: a < k < b ==> moves[k] != Begin(moves[a].t)
    ensures forall k :: a <= k < b && moves[k].t == moves[a].t ==> states[k + 1].db == states[k].db
  {
    assert Enabled(m, states[a], moves[a]) && states[a + 1] == After(m, states[a], moves[a]);
    RaisedStays(m, states, moves, moves[a].t, a + 1, b);
  }
}
