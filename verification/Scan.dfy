/**
 What one unlocked scan of the reconciliation sweep decides from the row it read
 (app/workers/tasks.py), and what the throttle behind it can see.
 */
module Scan {
  import opened Enums
  import opened Kyc

  /** Non-terminal and untouched since the cutoff: what the scan selects. */
  predicate Scanned(row: Row, cutoff: int) {
    (row.status.Created? || row.status.InProgress? || row.status.Processing?) && row.updatedAt <= cutoff
  }

  /** A session whose work was re-queued after the cutoff is left to finish. */
  predicate Throttled(row: Row, cutoff: int) {
    row.internal.reconciledAt.Some? && row.internal.reconciledAt.value > cutoff
  }

  /** Selected, not overdue, and waiting on a step whose work can be lost. */
  predicate Waits(row: Row, cutoff: int, now: int) {
    Scanned(row, cutoff) && row.expiresAt > now && (IsPending(row, DocumentVerification) || IsPending(row, Liveness))
  }

  predicate MayRequeue(row: Row, cutoff: int, now: int) {
    Waits(row, cutoff, now) && !Throttled(row, cutoff)
  }

  /** Clock of the last requeue among the operations, if there is one. */
  function LastMark(ops: seq<Op>): Option<int> {
    if ops == [] then None
    else if ops[|ops| - 1].MarkRequeued? then Some(ops[|ops| - 1].sighting.at)
    else LastMark(ops[..|ops| - 1])
  }

  /** While a session stays open, `reconciled_at` is the clock of the last requeue: no merge loses it. */
  lemma {:induction false} ReconciledAtIsLastMark(cfg: Config, s: Serial, ops: seq<Op>)
    requires LegalRun(cfg, s, ops) && !Terminal(RunOps(cfg, s, ops).row.status)
    requires s.row.internal.reconciledAt.None?
    ensures RunOps(cfg, s, ops).row.internal.reconciledAt == LastMark(ops)
  {
    if ops != [] {
      var n := |ops| - 1;
      LegalPrefix(cfg, s, ops, n);
      if Terminal(RunOps(cfg, s, ops[..n]).row.status) {
        StepStaysTerminal(cfg, RunOps(cfg, s, ops[..n]).row, ops[n]);
      }
      ReconciledAtIsLastMark(cfg, s, ops[..n]);
    }
  }

  /**
   Exactly what the throttle sees: a scan of a waiting session re-queues unless the
   last requeue committed before the scan is younger than the cutoff.
   */
  lemma {:induction false} RequeuesExactly(cfg: Config, s: Serial, ops: seq<Op>, cutoff: int, now: int)
    requires LegalRun(cfg, s, ops) && s.row.internal.reconciledAt.None?
    ensures var row := RunOps(cfg, s, ops).row;
            MayRequeue(row, cutoff, now) <==> Waits(row, cutoff, now) && LastMark(ops).GetOr(cutoff) <= cutoff
  {
    if Waits(RunOps(cfg, s, ops).row, cutoff, now) {
      ReconciledAtIsLastMark(cfg, s, ops);
    }
  }

  lemma {:induction false} NoMark(ops: seq<Op>)
    requires forall i :: 0 <= i < |ops| ==> !ops[i].MarkRequeued?
    ensures LastMark(ops) == None
  {
    if ops != [] {
      NoMark(ops[..|ops| - 1]);
    }
  }

  /**
   Exactly when a second requeue can come early: after one requeue at position `h`, a
   scan of the waiting session that had seen the first `seen` operations re-queues if
   it had not seen that requeue, or if `stuck` has passed since; otherwise never.
   */
  lemma {:induction false} SecondRequeueExactly(
    cfg: Config, s: Serial, log: seq<Op>, h: nat, seen: nat, cutoff: int, stuck: nat)
    requires LegalRun(cfg, s, log) && s.row.internal.reconciledAt.None?
    requires h < |log| && log[h].MarkRequeued? && forall i :: 0 <= i < |log| && i != h ==> !log[i].MarkRequeued?
    requires seen <= |log| && Waits(RunOps(cfg, s, log[..seen]).row, cutoff, cutoff + stuck)
    ensures MayRequeue(RunOps(cfg, s, log[..seen]).row, cutoff, cutoff + stuck) <==>
            seen <= h || cutoff + stuck >= log[h].sighting.at + stuck
  {
    var ops := log[..seen];
    LegalPrefix(cfg, s, log, seen);
    RequeuesExactly(cfg, s, ops, cutoff, cutoff + stuck);
    if h < seen {
      LastMarkAt(ops, h);
    } else {
      NoMark(ops);
    }
  }

  /** Every requeue in a log rests on a sighting of an earlier state of that log, at least `stuck` past its cutoff. */
  ghost predicate Sighted(cfg: Config, s: Serial, log: seq<Op>, sighting: Sighting, stuck: nat) {
    && sighting.seen <= |log| && sighting.at >= sighting.cutoff + stuck
    && MayRequeue(RunOps(cfg, s, log[..sighting.seen]).row, sighting.cutoff, sighting.at)
  }

  ghost predicate Justified(cfg: Config, s: Serial, log: seq<Op>, stuck: nat) {
    forall q :: 0 <= q < |log| && log[q].MarkRequeued? ==> Sighted(cfg, s, log[..q], log[q].sighting, stuck)
  }

  lemma SightedLater(cfg: Config, s: Serial, log: seq<Op>, more: seq<Op>, sighting: Sighting, stuck: nat)
    requires Sighted(cfg, s, log, sighting, stuck)
    ensures Sighted(cfg, s, log + more, sighting, stuck)
  {
    assert (log + more)[..sighting.seen] == log[..sighting.seen];
  }

  lemma JustifiedSnoc(cfg: Config, s: Serial, log: seq<Op>, op: Op, stuck: nat)
    requires Justified(cfg, s, log, stuck)
    requires op.MarkRequeued? ==> Sighted(cfg, s, log, op.sighting, stuck)
    ensures Justified(cfg, s, log + [op], stuck)
  {
    forall q | 0 <= q < |log + [op]| && (log + [op])[q].MarkRequeued?
      ensures Sighted(cfg, s, (log + [op])[..q], (log + [op])[q].sighting, stuck)
    {
      if q == |log| {
        assert (log + [op])[..q] == log;
      } else {
        assert (log + [op])[..q] == log[..q];
      }
    }
  }

  lemma {:induction false} LastMarkAt(ops: seq<Op>, h: nat)
    requires h < |ops| && ops[h].MarkRequeued?
    requires forall i :: h < i < |ops| ==> !ops[i].MarkRequeued?
    ensures LastMark(ops) == Some(ops[h].sighting.at)
  {
    if h < |ops| - 1 {
      LastMarkAt(ops[..|ops| - 1], h);
    }
  }

  /** The last requeue that a later one's scan saw committed is at least `stuck` older. */
  lemma SeenRequeueIsApart(cfg: Config, s: Serial, log: seq<Op>, stuck: nat, h: nat, q: nat)
    requires LegalRun(cfg, s, log) && Justified(cfg, s, log, stuck) && s.row.internal.reconciledAt.None?
    requires h < q < |log| && log[h].MarkRequeued? && log[q].MarkRequeued?
    requires h < log[q].sighting.seen && forall i :: h < i < log[q].sighting.seen ==> !log[i].MarkRequeued?
    ensures log[q].sighting.at >= log[h].sighting.at + stuck
  {
    var sighting := log[q].sighting;
    assert Sighted(cfg, s, log[..q], sighting, stuck);
    var seen := log[..sighting.seen];
    assert log[..q][..sighting.seen] == seen;
    LegalPrefix(cfg, s, log, sighting.seen);
    RequeuesExactly(cfg, s, seen, sighting.cutoff, sighting.at);
    LastMarkAt(seen, h);
  }

  /** Sweeps that never overlap: each requeue's scan saw every requeue committed before it. */
  ghost predicate NoOverlap(log: seq<Op>) {
    forall h, q :: 0 <= h < q < |log| && log[h].MarkRequeued? && log[q].MarkRequeued? ==> h < log[q].sighting.seen
  }

  /** The position of the last requeue before `n`. */
  function LastMarkIndex(log: seq<Op>, n: nat): (i: int)
    requires n <= |log|
    ensures -1 <= i < n && (i >= 0 ==> log[i].MarkRequeued?)
    ensures forall j :: i < j < n ==> !log[j].MarkRequeued?
  {
    if n == 0 then -1 else if log[n - 1].MarkRequeued? then n - 1 else LastMarkIndex(log, n - 1)
  }

  /** Without overlap any two requeues of a session are at least `stuck` apart. */
  lemma {:induction false} RequeuesAreApart(cfg: Config, s: Serial, log: seq<Op>, stuck: nat, h: nat, q: nat)
    requires LegalRun(cfg, s, log) && Justified(cfg, s, log, stuck) && s.row.internal.reconciledAt.None?
    requires NoOverlap(log)
    requires h < q < |log| && log[h].MarkRequeued? && log[q].MarkRequeued?
    ensures log[q].sighting.at >= log[h].sighting.at + stuck
    decreases q
  {
    assert Sighted(cfg, s, log[..q], log[q].sighting, stuck);
    var last := LastMarkIndex(log, log[q].sighting.seen);
    SeenRequeueIsApart(cfg, s, log, stuck, last, q);
    if h < last {
      RequeuesAreApart(cfg, s, log, stuck, h, last);
    }
  }
}
