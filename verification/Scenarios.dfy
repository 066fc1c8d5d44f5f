/** Runs that show where a guarantee ends: each is a reachable interleaving, given step by step. */
module Scenarios {
  import opened Enums
  import opened Audit
  import opened Webhooks
  import opened Kyc
  import opened Protocol

  ghost predicate Reachable(m: Model, s: State) {
    exists states, moves :: IsRun(m, states, moves) && states[|states| - 1] == s
  }

  lemma ReachInitial(m: Model)
    ensures Reachable(m, Initial(m))
  {
    assert IsRun(m, [Initial(m)], []);
  }

  lemma ReachNext(m: Model, s: State, move: Move)
    requires Reachable(m, s) && Enabled(m, s, move)
    ensures Reachable(m, After(m, s, move))
  {
    var states, moves :| IsRun(m, states, moves) && states[|states| - 1] == s;
    var after := After(m, s, move);
    assert IsRun(m, states + [after], moves + [move]);
  }

  lemma ReachedInv(m: Model, s: State)
    requires Reachable(m, s)
    ensures Inv(m, s)
  {
    var states, moves :| IsRun(m, states, moves) && states[|states| - 1] == s;
    RunKeepsInv(m, states, moves);
  }

  // ---- One move at a time ---------------------------------------------------

  lemma Begins(m: Model, s: State, t: TxId)
    requires Reachable(m, s) && t !in s.txs
    ensures Reachable(m, WithTx(s, t, NewTx(s.db.row)))
  {
    ReachNext(m, s, Begin(t));
  }

  lemma Locks(m: Model, s: State, t: TxId)
    requires Reachable(m, s) && t in s.txs && s.holder.None?
    requires !s.txs[t].locked && s.txs[t].owed == [] && !Raised(s.txs[t])
    ensures Reachable(m, WithTx(s, t, s.txs[t].(locked := true, ticket := s.tickets, row := s.db.row))
                         .(holder := Some(t), tickets := s.tickets + 1))
  {
    ReachNext(m, s, Lock(t));
  }

  lemma Operates(m: Model, s: State, t: TxId, op: Op)
    requires Reachable(m, s) && t in s.txs && !op.Purge?
    requires s.txs[t].locked && s.txs[t].owed == [] && !Raised(s.txs[t])
    requires (op.Override? ==> Terminal(op.target)) && (op.MarkRequeued? ==> Planned(s.txs[t], op.sighting))
    ensures var tx := s.txs[t];
            var effect := Apply(m.cfg, tx.row, op);
            Reachable(m, WithTx(s, t, tx.(row := effect.row, ops := tx.ops + [op], owed := Owed(effect))))
  {
    ReachNext(m, s, Operate(t, op));
  }

  lemma Scans(m: Model, s: State, t: TxId, cutoff: int, now: int)
    requires Reachable(m, s) && t in s.txs && now >= cutoff + m.stuck && !Raised(s.txs[t])
    ensures var glimpse := Glimpse(s.db.row, Sighting(|Committed(s.db)|, cutoff, now));
            Reachable(m, WithTx(s, t, s.txs[t].(glimpse := Some(glimpse))))
  {
    ReachNext(m, s, ScanRow(t, cutoff, now));
  }

  lemma Commits(m: Model, s: State, t: TxId)
    requires Reachable(m, s) && t in s.txs && s.txs[t].owed == [] && !Raised(s.txs[t])
    ensures Reachable(m, Abort(s, t).(db := CommitTo(s.db, s.txs[t])))
  {
    ReachNext(m, s, Commit(t));
  }

  lemma Owes1(m: Model, s: State, t: TxId, entry: Entry)
    requires Reachable(m, s) && t in s.txs && s.txs[t].owed == [] && !Raised(s.txs[t]) && !IsDecisive(entry)
    ensures Reachable(m, WithTx(s, t, s.txs[t].(owed := [Append(entry)])))
  {
    ReachNext(m, s, Owe(t, entry));
  }

  lemma Reads(m: Model, s: State, t: TxId, last: Option<Event>)
    requires Reachable(m, s) && t in s.txs && IsHighest(s.db.table, s.txs[t].pending, last)
    requires s.txs[t].owed != [] && s.txs[t].owed[0].Append? && s.txs[t].seen.NotRead?
    ensures Reachable(m, WithTx(s, t, s.txs[t].(seen := Read(last))))
  {
    ReachNext(m, s, ReadLast(t, last));
  }

  lemma Inserts(m: Model, s: State, t: TxId, now: int)
    requires Reachable(m, s) && t in s.txs
    requires s.txs[t].owed != [] && s.txs[t].owed[0].Append? && s.txs[t].seen.Read?
    requires forall u :: u in s.txs && u != t ==> s.txs[u].pending == []
    requires var e := Candidate(m, s.txs[t], now, None, None);
             e.hashed.sequence !in s.db.table && !HasSequence(s.txs[t].pending, e.hashed.sequence)
    ensures var tx := s.txs[t];
            var e := Candidate(m, tx, now, None, None);
            Reachable(m, WithTx(s, t, tx.(pending := tx.pending + [e], owed := tx.owed[1..], seen := NotRead)))
  {
    ReachNext(m, s, Insert(t, now, None, None));
  }

  lemma Queues(m: Model, s: State, t: TxId)
    requires Reachable(m, s) && t in s.txs && s.txs[t].owed == [Notify] && !Raised(s.txs[t])
    requires m.cfg.hasUrl && s.db.deliveries == [] && s.txs[t].queued == [] && EventOf(s.txs[t].row.status).Some?
    ensures var status := s.txs[t].row.status;
            Reachable(m, WithTx(s, t, s.txs[t].(
                            queued := [Delivery(EventOf(status).value, status, Waiting, 0)], owed := [])))
  {
    var status := s.txs[t].row.status;
    var all := QueueSessionEvent(m.cfg.hasUrl, s.db.deliveries + s.txs[t].queued, status);
    assert all == [Delivery(EventOf(status).value, status, Waiting, 0)] && all[0..] == all && [Notify][1..] == [];
    ReachNext(m, s, QueueWebhook(t));
  }

  lemma Fetches(m: Model, s: State, t: TxId, index: nat)
    requires Reachable(m, s) && t in s.txs && s.txs[t].delivering.None?
    requires index < |s.db.deliveries| && s.db.deliveries[index].status.Waiting?
    ensures var f := Fetched(index, s.db.deliveries[index].attempts, Untried);
            Reachable(m, WithTx(s, t, s.txs[t].(delivering := Some(f))))
  {
    ReachNext(m, s, Fetch(t, index));
  }

  lemma Posts(m: Model, s: State, t: TxId, report: Entry)
    requires Reachable(m, s) && t in s.txs && s.txs[t].owed == [] && !IsDecisive(report)
    requires s.txs[t].delivering.Some? && s.txs[t].delivering.value.attempt.Untried?
    requires s.txs[t].delivering.value.index < |s.db.deliveries|
    ensures var f := s.txs[t].delivering.value;
            Reachable(m, WithTx(s.(posts := s.posts + [Posting(f.index, s.db.deliveries[f.index].status)]), t,
                                s.txs[t].(delivering := Some(f.(attempt := Accepted)), owed := [Append(report)])))
  {
    ReachNext(m, s, Post(t, true, report));
  }

  // ---- Recording an owed event ----------------------------------------------

  /** The last event of the visible chain is the highest visible row. */
  lemma LastIsHighest(m: Model, db: Database, pending: seq<Event>)
    requires Holds(db.table, 1, Chain(db)) && ValidChain(m.hash, Chain(db) + pending)
    ensures IsHighest(db.table, pending, Last(Chain(db) + pending))
  {
    var chain := Chain(db) + pending;
    if chain != [] {
      var n := |chain| - 1;
      assert Linked(m.hash, chain, n);
      if pending == [] {
        assert db.table[1 + n] == Chain(db)[n];
      } else {
        assert chain[n] == pending[|pending| - 1];
      }
      forall f | f in pending ensures f.hashed.sequence <= chain[n].hashed.sequence {
        var i :| 0 <= i < |pending| && pending[i] == f;
        PendingSequence(m, db, pending, i);
      }
    }
  }

  lemma NextIsFree(m: Model, db: Database, pending: seq<Event>, e: Event)
    requires Holds(db.table, 1, Chain(db)) && ValidChain(m.hash, Chain(db) + pending)
    requires e.hashed.sequence == match Last(Chain(db) + pending) case None => 1 case Some(l) => l.hashed.sequence + 1
    ensures e.hashed.sequence !in db.table && !HasSequence(pending, e.hashed.sequence)
  {
    var chain := Chain(db) + pending;
    if chain != [] {
      assert Linked(m.hash, chain, |chain| - 1);
    }
    forall f | f in pending ensures f.hashed.sequence != e.hashed.sequence {
      var i :| 0 <= i < |pending| && pending[i] == f;
      PendingSequence(m, db, pending, i);
    }
  }

  function Recorded(s: State, t: TxId, e: Event): State
    requires t in s.txs && s.txs[t].owed != []
  {
    WithTx(s, t, s.txs[t].(pending := s.txs[t].pending + [e], owed := s.txs[t].owed[1..]))
  }

  /** While no other transaction holds uncommitted audit rows, one can record what it owes. */
  lemma RecordsAlone(m: Model, s: State, t: TxId, now: int) returns (e: Event)
    requires Reachable(m, s) && t in s.txs
    requires s.txs[t].owed != [] && s.txs[t].owed[0].Append? && s.txs[t].seen.NotRead?
    requires forall u :: u in s.txs && u != t ==> s.txs[u].pending == []
    ensures Reachable(m, Recorded(s, t, e))
  {
    ReachedInv(m, s);
    var tx := s.txs[t];
    var last := Last(Chain(s.db) + tx.pending);
    e := NextEvent(m.hash, last, tx.owed[0].entry, m.scope, now, None, None);
    LastIsHighest(m, s.db, tx.pending);
    NextIsFree(m, s.db, tx.pending, e);
    Reads(m, s, t, last);
    var reading := WithTx(s, t, tx.(seen := Read(last)));
    Inserts(m, reading, t, now);
    Overwrite(s, t, tx.(seen := Read(last)), tx.(pending := tx.pending + [e], owed := tx.owed[1..]));
  }

  lemma Overwrite(s: State, t: TxId, a: Tx, b: Tx)
    ensures WithTx(WithTx(s, t, a), t, b) == WithTx(s, t, b)
  {
    assert s.txs[t := a][t := b] == s.txs[t := b];
  }

  // ---- Overlapping sweeps ---------------------------------------------------

  function Two(m: Model): State {
    var tx := NewTx(Initial(m).db.row);
    Initial(m).(txs := map[0 := tx, 1 := tx])
  }

  lemma Start2(m: Model)
    ensures Reachable(m, Two(m))
  {
    ReachInitial(m);
    Begins(m, Initial(m), 0);
    var s := WithTx(Initial(m), 0, NewTx(Initial(m).db.row));
    Begins(m, s, 1);
    assert WithTx(s, 1, NewTx(s.db.row)).txs == Two(m).txs;
  }

  /** A transaction that only scanned takes the lock, marks the requeue and commits. */
  lemma SweepCommits(m: Model, s: State, t: TxId, sighting: Sighting, later: int) returns (after: State)
    requires Reachable(m, s) && s.holder.None? && t in s.txs
    requires s.txs[t] == NewTx(s.txs[t].row).(glimpse := s.txs[t].glimpse) && Planned(s.txs[t], sighting)
    ensures Reachable(m, after) && after.holder.None? && after.txs == Without(s.txs, t)
    ensures Committed(after.db) == Committed(s.db) + [MarkRequeued(sighting, later)]
  {
    var op := MarkRequeued(sighting, later);
    var tx := s.txs[t].(locked := true, ticket := s.tickets, row := s.db.row);
    Locks(m, s, t);
    var locked := WithTx(s, t, tx).(holder := Some(t), tickets := s.tickets + 1);
    Operates(m, locked, t, op);
    var done := tx.(row := Apply(m.cfg, tx.row, op).row, ops := [op], owed := []);
    assert tx.ops + [op] == [op] && Owed(Apply(m.cfg, tx.row, op)) == [];
    var marked := WithTx(locked, t, done);
    Commits(m, marked, t);
    after := Abort(marked, t).(db := CommitTo(marked.db, done));
    CommittedOps(s.db, done);
    assert after.txs == Without(s.txs, t);
  }

  lemma BothPlan(m: Model, first: Sighting, second: Sighting) returns (s: State)
    requires m.ttl > m.stuck + 1
    requires first == Sighting(0, m.createdAt, m.createdAt + m.stuck)
    requires second == Sighting(0, m.createdAt + 1, m.createdAt + m.stuck + 1)
    ensures Reachable(m, s) && s.holder.None? && s.txs.Keys == {0, 1} && Committed(s.db) == []
    ensures forall t :: t in s.txs ==> s.txs[t] == NewTx(s.txs[t].row).(glimpse := s.txs[t].glimpse)
    ensures Planned(s.txs[0], first) && Planned(s.txs[1], second)
  {
    Start2(m);
    var row := Initial(m).db.row;
    Scans(m, Two(m), 0, first.cutoff, first.at);
    var one := WithTx(Two(m), 0, NewTx(row).(glimpse := Some(Glimpse(row, first))));
    Scans(m, one, 1, second.cutoff, second.at);
    s := WithTx(one, 1, NewTx(row).(glimpse := Some(Glimpse(row, second))));
  }

  /**
   Overlap defeats the throttle: two sweeps that both scan before either commits
   re-queue the session one tick apart, however long `stuck` is.
   */
  lemma OverlappingSweepsBothRequeue(m: Model, later: int)
    requires m.ttl > m.stuck + 1
    ensures exists states: seq<State>, moves: seq<Move> :: IsRun(m, states, moves)
              && var log := Committed(states[|states| - 1].db);
                 |log| == 2 && log[0].MarkRequeued? && log[1].MarkRequeued?
                 && log[1].sighting.at == log[0].sighting.at + 1
  {
    var c := m.createdAt;
    var first, second := Sighting(0, c, c + m.stuck), Sighting(0, c + 1, c + m.stuck + 1);
    var s := BothPlan(m, first, second);
    var s1 := SweepCommits(m, s, 0, first, later);
    assert s1.txs[1] == s.txs[1];
    var s2 := SweepCommits(m, s1, 1, second, later);
    assert Committed(s2.db) == [MarkRequeued(first, later), MarkRequeued(second, later)];
    var states, moves :| IsRun(m, states, moves) && states[|states| - 1] == s2;
  }

  // ---- Overlapping deliveries -----------------------------------------------

  /** A session about to be overridden to VERIFIED: row, recorded entry, webhook still owed. */
  lemma OverrideRecorded(m: Model, now: int) returns (s: State)
    ensures Reachable(m, s) && s.txs.Keys == {0} && s.holder == Some(0)
    ensures s.txs[0].owed == [Notify] && s.txs[0].locked && s.txs[0].row.status == Verified
    ensures s.txs[0].queued == [] && s.txs[0].delivering.None? && s.db.deliveries == [] && s.posts == []
  {
    var op := Override(Verified, "reason", "ADMIN", now);
    var start := Initial(m);
    var effect := Apply(m.cfg, start.db.row, op);
    ReachInitial(m);
    Begins(m, start, 0);
    var s1 := WithTx(start, 0, NewTx(start.db.row));
    Locks(m, s1, 0);
    var locked := NewTx(start.db.row).(locked := true);
    var s2 := WithTx(s1, 0, locked).(holder := Some(0), tickets := 1);
    Operates(m, s2, 0, op);
    var owing := locked.(row := effect.row, ops := [op], owed := [Append(effect.entries[0]), Notify]);
    assert locked.ops + [op] == [op] && Owed(effect) == owing.owed;
    var s3 := WithTx(s2, 0, owing);
    var e := RecordsAlone(m, s3, 0, now);
    assert owing.owed[1..] == [Notify];
    s := Recorded(s3, 0, e);
  }

  /** A session overridden to VERIFIED, its webhook committed. */
  lemma QueuedDelivery(m: Model, now: int) returns (s: State)
    requires m.cfg.hasUrl
    ensures Reachable(m, s) && s.txs == map[] && s.posts == []
    ensures s.db.deliveries == [Delivery(KycVerified, Verified, Waiting, 0)]
  {
    var owing := OverrideRecorded(m, now);
    Queues(m, owing, 0);
    var queued := owing.txs[0].(queued := [Delivery(KycVerified, Verified, Waiting, 0)], owed := []);
    var done := WithTx(owing, 0, queued);
    Commits(m, done, 0);
    s := Abort(done, 0).(db := CommitTo(done.db, queued));
    assert s.txs == map[];
  }

  /** Two tasks have fetched the one delivery row before either posts. */
  lemma BothFetch(m: Model, now: int) returns (s: State)
    requires m.cfg.hasUrl
    ensures Reachable(m, s) && s.txs.Keys == {1, 2} && s.posts == []
    ensures s.db.deliveries == [Delivery(KycVerified, Verified, Waiting, 0)]
    ensures s.txs[1] == s.txs[2] == NewTx(s.db.row).(delivering := Some(Fetched(0, 0, Untried)))
  {
    var s0 := QueuedDelivery(m, now);
    var tx := NewTx(s0.db.row);
    var fetched := tx.(delivering := Some(Fetched(0, 0, Untried)));
    Begins(m, s0, 1);
    var s1 := WithTx(s0, 1, tx);
    Begins(m, s1, 2);
    var s2 := WithTx(s1, 2, tx);
    Fetches(m, s2, 1, 0);
    var s3 := WithTx(s2, 1, fetched);
    Fetches(m, s3, 2, 0);
    s := WithTx(s3, 2, fetched);
  }

  /** The first of them posts, records the delivery and commits DELIVERED. */
  lemma FirstDelivers(m: Model, s: State, report: Entry, now: int) returns (after: State)
    requires Reachable(m, s) && s.txs.Keys == {1, 2} && !IsDecisive(report)
    requires s.db.deliveries == [Delivery(KycVerified, Verified, Waiting, 0)]
    requires s.txs[1] == s.txs[2] == NewTx(s.db.row).(delivering := Some(Fetched(0, 0, Untried)))
    ensures Reachable(m, after) && 2 in after.txs && after.txs[2] == s.txs[2]
    ensures after.db.deliveries == [Delivery(KycVerified, Verified, Delivered, 1)]
  {
    Posts(m, s, 1, report);
    var posted := s.txs[1].(delivering := Some(Fetched(0, 0, Accepted)), owed := [Append(report)]);
    var s1 := WithTx(s.(posts := s.posts + [Posting(0, Waiting)]), 1, posted);
    var e := RecordsAlone(m, s1, 1, now);
    var s2 := Recorded(s1, 1, e);
    assert posted.owed[1..] == [];
    Commits(m, s2, 1);
    after := Abort(s2, 1).(db := CommitTo(s2.db, s2.txs[1]));
  }

  /** Overlap defeats the guard against re-notifying: the slower task posts although DELIVERED is committed. */
  lemma OverlappingTasksPostTwice(m: Model, report: Entry, now: int)
    requires m.cfg.hasUrl && !IsDecisive(report)
    ensures exists states: seq<State>, moves: seq<Move> :: IsRun(m, states, moves)
              && Posting(0, Delivered) in states[|states| - 1].posts
  {
    var s := BothFetch(m, now);
    var s1 := FirstDelivers(m, s, report, now);
    Posts(m, s1, 2, report);
    var f := s1.txs[2].delivering.value;
    var s2 := WithTx(s1.(posts := s1.posts + [Posting(0, Delivered)]), 2,
                     s1.txs[2].(delivering := Some(f.(attempt := Accepted)), owed := [Append(report)]));
    var states, moves :| IsRun(m, states, moves) && states[|states| - 1] == s2;
  }

  // ---- Waiting in a circle --------------------------------------------------

  /** `t` is about to take the row lock, and `u` holds it. */
  predicate WaitsForRow(s: State, t: TxId, u: TxId) {
    && t in s.txs && u in s.txs && t != u
    && !s.txs[t].locked && s.txs[t].owed == [] && s.holder == Some(u)
  }

  /** `t` would insert at a sequence that an uncommitted row of `u` occupies. */
  ghost predicate WaitsForInsert(m: Model, s: State, t: TxId, u: TxId) {
    && t in s.txs && u in s.txs && t != u
    && s.txs[t].owed != [] && s.txs[t].owed[0].Append? && s.txs[t].seen.Read?
    && HasSequence(s.txs[u].pending, Candidate(m, s.txs[t], 0, None, None).hashed.sequence)
  }

  ghost predicate Deadlocked(m: Model, s: State, t: TxId, u: TxId) {
    WaitsForRow(s, t, u) && WaitsForInsert(m, s, u, t)
  }

  /** The next moves of the two are both disabled. */
  lemma DeadlockBlocks(m: Model, s: State, t: TxId, u: TxId, now: int, ip: Option<string>, userAgent: Option<string>)
    requires Deadlocked(m, s, t, u)
    ensures !Enabled(m, s, Lock(t)) && !Enabled(m, s, Insert(u, now, ip, userAgent))
  {
    assert Candidate(m, s.txs[u], now, ip, userAgent).hashed.sequence
        == Candidate(m, s.txs[u], 0, None, None).hashed.sequence;
  }

  /** A move of a third transaction touches neither record, nor the lock. */
  lemma OthersLeaveWaiting(m: Model, s: State, move: Move, t: TxId, u: TxId)
    requires Enabled(m, s, move) && move.t != t && move.t != u
    requires t in s.txs && u in s.txs && s.holder == Some(u)
    ensures var after := After(m, s, move);
            && t in after.txs && after.txs[t] == s.txs[t]
            && u in after.txs && after.txs[u] == s.txs[u]
            && after.holder == s.holder
  {
  }

  /**
   While the one keeps asking for the row and the other keeps trying to insert, a
   deadlock lasts: neither moves again, whatever all other transactions do.
   */
  lemma {:induction false} DeadlockLasts(
    m: Model, states: seq<State>, moves: seq<Move>, t: TxId, u: TxId, a: nat, b: nat)
    requires IsRun(m, states, moves) && a <= b < |states| && Deadlocked(m, states[a], t, u)
    requires forall k :: a <= k < b ==> (moves[k].t == t ==> moves[k].Lock?) && (moves[k].t == u ==> moves[k].Insert?)
    ensures Deadlocked(m, states[b], t, u)
    ensures forall k :: a <= k < b ==> moves[k].t != t && moves[k].t != u
    decreases b
  {
    if a < b {
      var n := b - 1;
      DeadlockLasts(m, states, moves, t, u, a, n);
      var s, move := states[n], moves[n];
      assert Enabled(m, s, move) && states[n + 1] == After(m, s, move);
      if move.Lock? {
        DeadlockBlocks(m, s, t, u, 0, None, None);
      } else if move.Insert? {
        DeadlockBlocks(m, s, t, u, move.now, move.ip, move.userAgent);
      }
      OthersLeaveWaiting(m, s, move, t, u);
    }
  }

  /** One transaction has recorded an event and not yet locked; the other holds the lock and owes one. */
  lemma RecordedThenLocked(m: Model, note: Entry, now: int) returns (s: State)
    requires !IsDecisive(note)
    ensures Reachable(m, s) && s.txs.Keys == {0, 1} && s.holder == Some(1)
    ensures !s.txs[0].locked && s.txs[0].owed == [] && |s.txs[0].pending| == 1
    ensures s.txs[1].pending == [] && s.txs[1].seen.NotRead? && s.txs[1].owed != [] && s.txs[1].owed[0].Append?
    ensures s.db == Initial(m).db
  {
    Start2(m);
    var tx := NewTx(Initial(m).db.row);
    Owes1(m, Two(m), 0, note);
    var s1 := WithTx(Two(m), 0, tx.(owed := [Append(note)]));
    var e := RecordsAlone(m, s1, 0, now);
    assert [Append(note)][1..] == [];
    var s2 := Recorded(s1, 0, e);
    Locks(m, s2, 1);
    var s3 := WithTx(s2, 1, tx.(locked := true)).(holder := Some(1), tickets := 1);
    var op := Override(Verified, "reason", "ADMIN", now);
    Operates(m, s3, 1, op);
    var effect := Apply(m.cfg, tx.row, op);
    s := WithTx(s3, 1, tx.(locked := true, row := effect.row, ops := [] + [op], owed := Owed(effect)));
    assert Owed(effect)[0] == Append(effect.entries[0]);
  }

  /**
   Recording an event before taking the row lock, as the document task does, can end
   in a circle: it waits for the row, and the holder waits for its audit row.
   */
  lemma RecordThenLockDeadlocks(m: Model, note: Entry, now: int)
    requires !IsDecisive(note)
    ensures exists states: seq<State>, moves: seq<Move> :: IsRun(m, states, moves)
              && Deadlocked(m, states[|states| - 1], 0, 1)
  {
    var s := RecordedThenLocked(m, note, now);
    var s1 := HolderReads(m, s);
    var states, moves :| IsRun(m, states, moves) && states[|states| - 1] == s1;
  }

  /** The holder reads the committed chain, whose next sequence the other transaction has taken. */
  lemma HolderReads(m: Model, s: State) returns (after: State)
    requires Reachable(m, s) && s.txs.Keys == {0, 1} && s.holder == Some(1)
    requires !s.txs[0].locked && s.txs[0].owed == [] && s.txs[0].pending != []
    requires s.txs[1].pending == [] && s.txs[1].seen.NotRead? && s.txs[1].owed != [] && s.txs[1].owed[0].Append?
    ensures Reachable(m, after) && Deadlocked(m, after, 0, 1)
  {
    ReachedInv(m, s);
    var last := Last(Chain(s.db));
    assert Chain(s.db) + [] == Chain(s.db);
    LastIsHighest(m, s.db, []);
    Reads(m, s, 1, last);
    after := WithTx(s, 1, s.txs[1].(seen := Read(last)));
    OtherHoldsNext(m, s.db, s.txs[0].pending);
    LastSequence(m, Chain(s.db));
  }

  lemma LastSequence(m: Model, chain: seq<Event>)
    requires ValidChain(m.hash, chain)
    ensures chain != [] ==> chain[|chain| - 1].hashed.sequence == |chain|
  {
    if chain != [] {
      assert Linked(m.hash, chain, |chain| - 1);
    }
  }

  /** A transaction that does not want the row lock is not waiting: it has nothing to insert, or no one is in its way. */
  ghost predicate Free(m: Model, s: State, t: TxId)
    requires t in s.txs
  {
    forall u :: u in s.txs ==> !WaitsForInsert(m, s, t, u)
  }

  /**
   The order that excludes it: if every transaction that still wants the row lock has
   recorded nothing yet, some transaction can always go on, by taking the lock or unhindered.
   */
  lemma LockFirstNeverDeadlocks(m: Model, s: State, wanting: set<TxId>) returns (t: TxId)
    requires Reachable(m, s) && s.txs != map[]
    requires forall u :: u in wanting ==>
                           u in s.txs && !s.txs[u].locked && s.txs[u].owed == [] && s.txs[u].pending == []
    ensures t in s.txs
    ensures if t in wanting then s.holder.None? else Free(m, s, t)
  {
    ReachedInv(m, s);
    if appender :| appender in s.txs && s.txs[appender].pending != [] {
      t := appender;
    } else if s.holder.Some? {
      t := s.holder.value;
    } else {
      t :| t in s.txs;
    }
  }

}
