/**
 Several workers, one session: interleaved database transactions over the
 session row, the audit table and the webhook queue.

 A transaction re-reads the row when it takes the row lock (`lock_session`,
 app/services/kyc.py) and keeps the lock until it ends (`db_session`,
 app/db/session.py).  An audit event is appended in two separate moves: read the
 highest sequence without any lock, insert at the next one.  The unique
 constraint (app/models/audit.py) makes an insert wait for another uncommitted
 row with the same sequence and abort on a committed one.
 */
module Protocol {
  import opened Enums
  import opened Audit
  import opened Webhooks
  import opened Kyc
  import opened Scan

  type TxId = nat

  /** The deployment: configuration, hash, the sweep's throttle, and the session as it was created. */
  datatype Model = Model(cfg: Config, hash: HashFunction, stuck: nat, scope: Scope, createdAt: int, ttl: int)

  /** What an operation still has to do in its transaction. */
  datatype Work = Append(entry: Entry) | Notify

  datatype Seen = NotRead | Read(last: Option<Event>)

  datatype Attempt = Untried | Accepted | Refused

  /** A delivery row as `deliver_webhook` fetched it, and how the POST went. */
  datatype Fetched = Fetched(index: nat, attempts: nat, attempt: Attempt)

  /** A row as the sweep scanned it, without any lock. */
  datatype Glimpse = Glimpse(row: Row, sighting: Sighting)

  datatype Tx = Tx(
    locked: bool,
    ticket: nat,
    row: Row,
    ops: seq<Op>,
    owed: seq<Work>,
    seen: Seen,
    pending: seq<Event>,
    queued: seq<Delivery>,
    sawTerminal: bool,
    glimpse: Option<Glimpse>,
    delivering: Option<Fetched>)

  /** The operations of one committed transaction and the ticket it drew with the row lock. */
  datatype Batch = Batch(ticket: nat, ops: seq<Op>)

  /** Committed state; `log` records the committed transactions that held the row lock. */
  datatype Database = Database(row: Row, table: Table, deliveries: seq<Delivery>, log: seq<Batch>)

  function Flat(log: seq<Batch>): seq<Op> {
    if log == [] then [] else Flat(log[..|log| - 1]) + log[|log| - 1].ops
  }

  /** All committed operations, in commit order. */
  function Committed(db: Database): seq<Op> {
    Flat(db.log)
  }

  datatype Posting = Posting(index: nat, statusThen: DeliveryStatus)

  datatype State = State(
    db: Database, holder: Option<TxId>, tickets: nat, txs: map<TxId, Tx>, posts: seq<Posting>)

  datatype Move =
    | Begin(t: TxId)
    | Lock(t: TxId)
    | Operate(t: TxId, op: Op)
    | Observe(t: TxId)
    | ScanRow(t: TxId, cutoff: int, now: int)
    | Owe(t: TxId, entry: Entry)
    | ReadLast(t: TxId, last: Option<Event>)
    | Insert(t: TxId, now: int, ip: Option<string>, userAgent: Option<string>)
    | QueueWebhook(t: TxId)
    | Fetch(t: TxId, index: nat)
    | Post(t: TxId, accepted: bool, report: Entry)
    | Commit(t: TxId)
    | Rollback(t: TxId)

  /** Events that only the session operations record. */
  predicate IsDecisive(entry: Entry) {
    entry.eventType.KycDecision? || entry.eventType.DecisionBlocked?
    || entry.eventType.DecisionOverridden? || entry.eventType.SessionExpired?
  }

  function Decisive(entries: seq<Entry>): seq<Entry> {
    if entries == [] then []
    else
      var last := entries[|entries| - 1];
      Decisive(entries[..|entries| - 1]) + (if IsDecisive(last) then [last] else [])
  }

  function CreationEvent(m: Model): Event {
    NextEvent(m.hash, None, CreationEntry("created"), m.scope, m.createdAt, None, None)
  }

  function Initial(m: Model): State {
    State(Database(CreateRow(m.cfg.policy, m.createdAt, m.ttl), map[1 := CreationEvent(m)], [], []),
          None, 0, map[], [])
  }

  function NewTx(row: Row): Tx {
    Tx(false, 0, row, [], [], NotRead, [], [], false, None, None)
  }

  /** `last` is the visible row with the highest sequence: committed rows and own inserts. */
  ghost predicate IsHighest(table: Table, pending: seq<Event>, last: Option<Event>) {
    match last
    case None => (forall k :: k !in table) && pending == []
    case Some(e) =>
      && (e in pending || (e.hashed.sequence in table && table[e.hashed.sequence] == e))
      && (forall k :: k in table ==> k <= e.hashed.sequence)
      && (forall f :: f in pending ==> f.hashed.sequence <= e.hashed.sequence)
  }

  function Candidate(m: Model, tx: Tx, now: int, ip: Option<string>, userAgent: Option<string>): Event
    requires tx.owed != [] && tx.owed[0].Append? && tx.seen.Read?
  {
    NextEvent(m.hash, tx.seen.last, tx.owed[0].entry, m.scope, now, ip, userAgent)
  }

  ghost predicate HasSequence(events: seq<Event>, sequence: int) {
    exists e :: e in events && e.hashed.sequence == sequence
  }

  /** The POST was refused: the exception leaves `db_session` once its event is recorded. */
  predicate Raised(tx: Tx) {
    tx.delivering.Some? && tx.delivering.value.attempt.Refused?
  }

  /** A requeue is the one planned from the transaction's own unlocked scan. */
  predicate Planned(tx: Tx, sighting: Sighting) {
    && tx.glimpse.Some? && tx.glimpse.value.sighting == sighting
    && MayRequeue(tx.glimpse.value.row, sighting.cutoff, sighting.at)
  }

  ghost predicate TxEnabled(m: Model, s: State, tx: Tx, move: Move) {
    && (Raised(tx) ==> move.ReadLast? || move.Insert? || move.Rollback?)
    && match move
    case Begin(t) => false
    case Lock(t) => tx.owed == [] && (tx.locked || s.holder.None?)
    case Operate(t, op) =>
      && tx.locked && tx.owed == []
      && (op.Override? ==> Terminal(op.target))
      && (op.Purge? ==> tx.sawTerminal)
      && (op.MarkRequeued? ==> Planned(tx, op.sighting))
    case Observe(t) => true
    case ScanRow(t, cutoff, now) => now >= cutoff + m.stuck
    case Owe(t, entry) => tx.owed == [] && !IsDecisive(entry)
    case ReadLast(t, last) =>
      && tx.owed != [] && tx.owed[0].Append? && tx.seen.NotRead?
      && IsHighest(s.db.table, tx.pending, last)
    case Insert(t, now, ip, userAgent) =>
      && tx.owed != [] && tx.owed[0].Append? && tx.seen.Read?
      && var e := Candidate(m, tx, now, ip, userAgent);
      forall u :: u in s.txs && u != t ==> !HasSequence(s.txs[u].pending, e.hashed.sequence)
    case QueueWebhook(t) => tx.owed != [] && tx.owed[0].Notify?
    case Fetch(t, index) => index < |s.db.deliveries| && tx.delivering.None?
    case Post(t, accepted, report) =>
      && tx.delivering.Some? && tx.delivering.value.attempt.Untried? && tx.owed == [] && !IsDecisive(report)
      && tx.delivering.value.index < |s.db.deliveries|
    case Commit(t) => tx.owed == []
    case Rollback(t) => true
  }

  ghost predicate Enabled(m: Model, s: State, move: Move) {
    if move.Begin? then move.t !in s.txs else move.t in s.txs && TxEnabled(m, s, s.txs[move.t], move)
  }

  function Without(txs: map<TxId, Tx>, t: TxId): map<TxId, Tx> {
    map u | u in txs && u != t :: txs[u]
  }

  /** The transaction's writes vanish and its lock is released. */
  function Abort(s: State, t: TxId): State {
    s.(txs := Without(s.txs, t), holder := if s.holder == Some(t) then None else s.holder)
  }

  function WithTx(s: State, t: TxId, tx: Tx): State {
    s.(txs := s.txs[t := tx])
  }

  function Owed(effect: Effect): seq<Work> {
    seq(|effect.entries|, i requires 0 <= i < |effect.entries| => Append(effect.entries[i]))
    + (if effect.notify then [Notify] else [])
  }

  ghost function CommitTo(db: Database, tx: Tx): Database {
    Database(
      if tx.locked then tx.row else db.row,
      Merge(db.table, tx.pending),
      (if tx.delivering.Some? then Attempted(db.deliveries, tx.delivering.value) else db.deliveries) + tx.queued,
      if tx.locked then db.log + [Batch(tx.ticket, tx.ops)] else db.log)
  }

  /** What the attempt has written to its delivery row: DELIVERED or FAILED, and one more attempt. */
  function Attempted(deliveries: seq<Delivery>, f: Fetched): seq<Delivery> {
    if f.attempt.Untried? || f.index >= |deliveries| then deliveries
    else
      deliveries[f.index := deliveries[f.index].(
                 status := if f.attempt.Accepted? then Delivered else Failing, attempts := f.attempts + 1)]
  }

  /** Committed rows plus the transaction's own, which carry new sequences. */
  ghost function Merge(table: Table, pending: seq<Event>): Table {
    if pending == [] then table
    else
      var e := pending[|pending| - 1];
      Merge(table, pending[..|pending| - 1])[e.hashed.sequence := e]
  }

  ghost function After(m: Model, s: State, move: Move): State
    requires Enabled(m, s, move)
  {
    match move
    case Begin(t) => WithTx(s, t, NewTx(s.db.row))
    case Lock(t) =>
      var tx := s.txs[t];
      if tx.locked then s
      else WithTx(s, t, tx.(locked := true, ticket := s.tickets, row := s.db.row))
           .(holder := Some(t), tickets := s.tickets + 1)
    case Operate(t, op) =>
      var tx := s.txs[t];
      var effect := Apply(m.cfg, tx.row, op);
      WithTx(s, t, tx.(row := effect.row, ops := tx.ops + [op], owed := Owed(effect)))
    case Observe(t) =>
      var tx := s.txs[t];
      WithTx(s, t, tx.(sawTerminal := Terminal(s.db.row.status)))
    case ScanRow(t, cutoff, now) =>
      var glimpse := Glimpse(s.db.row, Sighting(|Committed(s.db)|, cutoff, now));
      WithTx(s, t, s.txs[t].(glimpse := Some(glimpse)))
    case Owe(t, entry) => WithTx(s, t, s.txs[t].(owed := [Append(entry)]))
    case ReadLast(t, last) => WithTx(s, t, s.txs[t].(seen := Read(last)))
    case Insert(t, now, ip, userAgent) =>
      var tx := s.txs[t];
      var e := Candidate(m, tx, now, ip, userAgent);
      if e.hashed.sequence in s.db.table || HasSequence(tx.pending, e.hashed.sequence) then Abort(s, t)
      else WithTx(s, t, tx.(pending := tx.pending + [e], owed := tx.owed[1..], seen := NotRead))
    case QueueWebhook(t) =>
      var tx := s.txs[t];
      var all := QueueSessionEvent(m.cfg.hasUrl, s.db.deliveries + tx.queued, tx.row.status);
      WithTx(s, t, tx.(queued := all[|s.db.deliveries|..], owed := tx.owed[1..]))
    case Fetch(t, index) =>
      if s.db.deliveries[index].status.Delivered? then s
      else WithTx(s, t, s.txs[t].(delivering := Some(Fetched(index, s.db.deliveries[index].attempts, Untried))))
    case Post(t, accepted, report) =>
      var tx := s.txs[t];
      var f := tx.delivering.value;
      var posted := s.(posts := s.posts + [Posting(f.index, s.db.deliveries[f.index].status)]);
      var tried := f.(attempt := if accepted then Accepted else Refused);
      WithTx(posted, t, tx.(delivering := Some(tried), owed := [Append(report)]))
    case Commit(t) =>
      Abort(s, t).(db := CommitTo(s.db, s.txs[t]))
    case Rollback(t) => Abort(s, t)
  }

  // ---- Invariant ------------------------------------------------------------

  ghost function Chain(db: Database): seq<Event> {
    ListEvents(db.table)
  }

  function StartOf(m: Model): Serial {
    Start(m.cfg.policy, m.createdAt, m.ttl)
  }

  ghost predicate DeliveryOk(d: Delivery) {
    (d.status.Waiting? && d.attempts == 0) || (d.status.Delivered? && d.attempts == 1)
  }

  ghost predicate DeliveriesOk(deliveries: seq<Delivery>) {
    forall d :: d in deliveries ==> DeliveryOk(d)
  }

  /** The committed state is what a serial run of the committed operations produces. */
  ghost predicate Base(m: Model, db: Database) {
    && Holds(db.table, 1, Chain(db))
    && ValidChain(m.hash, Chain(db))
    && LegalRun(m.cfg, StartOf(m), Committed(db))
    && Justified(m.cfg, StartOf(m), Committed(db), m.stuck)
    && RunOps(m.cfg, StartOf(m), Committed(db))
       == Serial(db.row, Decisive(EntriesOf(Chain(db))), Names(db.deliveries))
    && DeliveriesOk(db.deliveries)
  }

  function OwedEntries(owed: seq<Work>): seq<Entry> {
    if owed == [] then []
    else (if owed[0].Append? then [owed[0].entry] else []) + OwedEntries(owed[1..])
  }

  ghost predicate Owes(owed: seq<Work>, notify: bool) {
    if notify then owed != [] && owed[|owed| - 1].Notify?
                   && forall i :: 0 <= i < |owed| - 1 ==> owed[i].Append?
    else forall i :: 0 <= i < |owed| ==> owed[i].Append?
  }

  /** The events announced so far, completed by the webhook still owed. */
  ghost predicate Announced(m: Model, announced: seq<WebhookEvent>, names: seq<WebhookEvent>, owed: seq<Work>, status: SessionStatus) {
    || (Owes(owed, false) && announced == names)
    || (Owes(owed, true) && announced == Announce(m.cfg.hasUrl, names, status))
  }

  /** What the lock holder has done so far, completed by what it still owes, is a serial run too. */
  ghost predicate Reached(
    m: Model, log: seq<Op>, row: Row, events: seq<Event>, names: seq<WebhookEvent>, owed: seq<Work>)
  {
    && LegalRun(m.cfg, StartOf(m), log)
    && Justified(m.cfg, StartOf(m), log, m.stuck)
    && var run := RunOps(m.cfg, StartOf(m), log);
    && run.row == row
    && run.entries == Decisive(EntriesOf(events) + OwedEntries(owed))
    && Announced(m, run.announced, names, owed, row.status)
  }

  ghost predicate Tracks(m: Model, db: Database, tx: Tx) {
    Reached(m, Committed(db) + tx.ops, tx.row, Chain(db) + tx.pending, Names(db.deliveries + tx.queued), tx.owed)
  }

  /** A transaction without the lock records only non-decisive events. */
  ghost predicate Quiet(tx: Tx) {
    && tx.ops == [] && tx.queued == []
    && Owes(tx.owed, false)
    && Decisive(EntriesOf(tx.pending) + OwedEntries(tx.owed)) == []
  }

  ghost predicate SeenOk(db: Database, pending: seq<Event>, seen: Seen) {
    match seen
    case NotRead => true
    case Read(last) =>
      if pending != [] then last == Last(pending)
      else last.None? || (last.value.hashed.sequence in db.table
                          && db.table[last.value.hashed.sequence] == last.value)
  }

  /** The scanned row is the one some committed prefix led to. */
  ghost predicate GlimpseOk(m: Model, log: seq<Op>, glimpse: Option<Glimpse>) {
    match glimpse
    case None => true
    case Some(g) =>
      && g.sighting.seen <= |log| && g.sighting.at >= g.sighting.cutoff + m.stuck
      && g.row == RunOps(m.cfg, StartOf(m), log[..g.sighting.seen]).row
  }

  ghost predicate TxInv(m: Model, db: Database, tx: Tx) {
    && ValidChain(m.hash, Chain(db) + tx.pending)
    && SeenOk(db, tx.pending, tx.seen)
    && (if tx.locked then Tracks(m, db, tx) else Quiet(tx))
    && (tx.sawTerminal ==> Terminal(db.row.status))
    && DeliveriesOk(tx.queued)
    && GlimpseOk(m, Committed(db), tx.glimpse)
    && (tx.delivering.Some? ==> tx.delivering.value.index < |db.deliveries| && tx.delivering.value.attempts == 0)
  }

  ghost predicate LocksOk(s: State) {
    && (s.holder.Some? ==> s.holder.value in s.txs)
    && (forall t :: t in s.txs ==> (s.txs[t].locked <==> s.holder == Some(t)))
    && (forall i, j :: 0 <= i < j < |s.db.log| ==> s.db.log[i].ticket < s.db.log[j].ticket)
    && (forall t, i :: t in s.txs && s.txs[t].locked && 0 <= i < |s.db.log| ==> s.db.log[i].ticket < s.txs[t].ticket)
    && (forall i :: 0 <= i < |s.db.log| ==> s.db.log[i].ticket < s.tickets)
    && (forall t :: t in s.txs && s.txs[t].locked ==> s.txs[t].ticket < s.tickets)
  }

  /** At most one transaction holds uncommitted audit rows. */
  ghost predicate OneAppender(s: State) {
    forall t, u :: t in s.txs && u in s.txs && t != u ==> s.txs[t].pending == [] || s.txs[u].pending == []
  }

  ghost predicate Inv(m: Model, s: State) {
    && Base(m, s.db)
    && AllTx(m, s.db, s.txs)
    && LocksOk(s)
    && OneAppender(s)
  }

  // ---- Lists of entries -----------------------------------------------------

  lemma {:induction false} DecisiveConcat(a: seq<Entry>, b: seq<Entry>)
    ensures Decisive(a + b) == Decisive(a) + Decisive(b)
    decreases |b|
  {
    if b == [] {
      assert a + b == a;
    } else {
      var n := |b| - 1;
      DecisiveConcat(a, b[..n]);
      assert (a + b)[..|a + b| - 1] == a + b[..n];
    }
  }

  lemma EntriesConcat(a: seq<Event>, b: seq<Event>)
    ensures EntriesOf(a + b) == EntriesOf(a) + EntriesOf(b)
  {
  }

  lemma EffectIsShort(cfg: Config, row: Row, op: Op)
    ensures var entries := Apply(cfg, row, op).entries;
            |entries| <= 1 && (entries != [] ==> IsDecisive(entries[0]))
  {
  }

  lemma OwedEntriesOf(effect: Effect)
    requires |effect.entries| <= 1
    ensures OwedEntries(Owed(effect)) == effect.entries
  {
    var owed := Owed(effect);
    var tail := if effect.notify then [Notify] else [];
    assert OwedEntries(tail) == [] by {
      assert tail != [] ==> tail[1..] == [];
    }
    if effect.entries == [] {
      assert owed == tail;
    } else {
      assert owed == [Append(effect.entries[0])] + tail && owed[1..] == tail;
    }
  }

  lemma EffectsAreDecisive(cfg: Config, row: Row, op: Op)
    ensures var effect := Apply(cfg, row, op);
            Decisive(effect.entries) == effect.entries && OwedEntries(Owed(effect)) == effect.entries
  {
    var effect := Apply(cfg, row, op);
    EffectIsShort(cfg, row, op);
    OwedEntriesOf(effect);
    assert effect.entries != [] ==> effect.entries == [] + [effect.entries[0]];
  }

  // ---- Local moves ----------------------------------------------------------

  ghost predicate AllTx(m: Model, db: Database, txs: map<TxId, Tx>) {
    forall t :: t in txs ==> TxInv(m, db, txs[t])
  }

  lemma LocalLocks(s: State, t: TxId, tx: Tx)
    requires LocksOk(s) && t in s.txs
    requires tx.locked == s.txs[t].locked && tx.ticket == s.txs[t].ticket
    ensures LocksOk(WithTx(s, t, tx))
  {
  }

  lemma LocalAppender(s: State, t: TxId, tx: Tx)
    requires OneAppender(s) && t in s.txs
    requires tx.pending == s.txs[t].pending
             || (forall u :: u in s.txs && u != t ==> s.txs[u].pending == [])
    ensures OneAppender(WithTx(s, t, tx))
  {
  }

  lemma LocalInv(m: Model, db: Database, txs: map<TxId, Tx>, t: TxId, tx: Tx)
    requires AllTx(m, db, txs) && TxInv(m, db, tx)
    ensures AllTx(m, db, txs[t := tx])
  {
    var after := txs[t := tx];
    forall u | u in after ensures TxInv(m, db, after[u]) {
      if u == t {
        assert after[u] == tx;
      } else {
        assert after[u] == txs[u];
      }
    }
  }

  /** A step that only rewrites one transaction's own record. */
  lemma LocalStep(m: Model, s: State, t: TxId, tx: Tx)
    requires Inv(m, s) && t in s.txs
    requires TxInv(m, s.db, tx)
    requires tx.locked == s.txs[t].locked && tx.ticket == s.txs[t].ticket
    requires tx.pending == s.txs[t].pending
             || (forall u :: u in s.txs && u != t ==> s.txs[u].pending == [])
    ensures Inv(m, WithTx(s, t, tx))
  {
    LocalLocks(s, t, tx);
    LocalAppender(s, t, tx);
    LocalInv(m, s.db, s.txs, t, tx);
  }

  lemma AbortKeepsInv(m: Model, s: State, t: TxId)
    requires Inv(m, s) && t in s.txs
    ensures Inv(m, Abort(s, t))
  {
  }

  lemma BeginTx(m: Model, db: Database)
    requires Base(m, db)
    ensures TxInv(m, db, NewTx(db.row))
  {
    assert Chain(db) + [] == Chain(db);
  }

  lemma BeginLocks(s: State, t: TxId)
    requires LocksOk(s) && OneAppender(s) && t !in s.txs
    ensures LocksOk(WithTx(s, t, NewTx(s.db.row))) && OneAppender(WithTx(s, t, NewTx(s.db.row)))
  {
  }

  lemma BeginKeepsInv(m: Model, s: State, t: TxId)
    requires Inv(m, s) && t !in s.txs
    ensures Inv(m, WithTx(s, t, NewTx(s.db.row)))
  {
    BeginTx(m, s.db);
    BeginLocks(s, t);
    LocalInv(m, s.db, s.txs, t, NewTx(s.db.row));
  }

  lemma LockTracks(m: Model, db: Database, tx: Tx, ticket: nat)
    requires Base(m, db) && TxInv(m, db, tx) && !tx.locked && tx.owed == []
    ensures TxInv(m, db, tx.(locked := true, ticket := ticket, row := db.row))
  {
    assert Committed(db) + [] == Committed(db);
    assert db.deliveries + [] == db.deliveries;
    DecisiveSplit(Chain(db), tx.pending, OwedEntries(tx.owed));
    assert Owes([], false);
  }

  lemma LockLocks(s: State, t: TxId, tx: Tx)
    requires LocksOk(s) && t in s.txs && s.holder.None?
    requires tx.locked && tx.ticket == s.tickets
    ensures LocksOk(WithTx(s, t, tx).(holder := Some(t), tickets := s.tickets + 1))
  {
  }

  /** Taking the lock re-reads the committed row: nothing a finished worker wrote is missed. */
  lemma LockKeepsInv(m: Model, s: State, t: TxId)
    requires Inv(m, s) && Enabled(m, s, Lock(t))
    ensures Inv(m, After(m, s, Lock(t)))
  {
    var tx := s.txs[t];
    if !tx.locked {
      var locked := tx.(locked := true, ticket := s.tickets, row := s.db.row);
      LockTracks(m, s.db, tx, s.tickets);
      LockLocks(s, t, locked);
      LocalAppender(s, t, locked);
      LocalInv(m, s.db, s.txs, t, locked);
    }
  }

  lemma HolderStaysTerminal(m: Model, db: Database, tx: Tx)
    requires Base(m, db) && Tracks(m, db, tx) && Terminal(db.row.status)
    ensures Terminal(tx.row.status)
  {
    LegalSuffix(m.cfg, StartOf(m), Committed(db), tx.ops);
    RunConcat(m.cfg, StartOf(m), Committed(db), tx.ops);
    TerminalStaysTerminal(m.cfg, RunOps(m.cfg, StartOf(m), Committed(db)), tx.ops);
  }

  lemma OperateKeepsInv(m: Model, s: State, t: TxId, op: Op)
    requires Inv(m, s) && Enabled(m, s, Operate(t, op))
    ensures Inv(m, After(m, s, Operate(t, op)))
  {
    var tx := s.txs[t];
    var effect := Apply(m.cfg, tx.row, op);
    var done := tx.(row := effect.row, ops := tx.ops + [op], owed := Owed(effect));
    if op.Purge? {
      HolderStaysTerminal(m, s.db, tx);
    }
    if op.MarkRequeued? {
      PlannedIsSighted(m, s.db, tx, op.sighting);
    }
    OperateTracks(m, s.db, tx, op);
    LocalStep(m, s, t, done);
  }

  /** However much has been committed or done since, the plan rests on the prefix the scan saw. */
  lemma PlannedIsSighted(m: Model, db: Database, tx: Tx, sighting: Sighting)
    requires GlimpseOk(m, Committed(db), tx.glimpse) && Planned(tx, sighting)
    ensures Sighted(m.cfg, StartOf(m), Committed(db) + tx.ops, sighting, m.stuck)
  {
    SightedLater(m.cfg, StartOf(m), Committed(db), tx.ops, sighting, m.stuck);
  }

  lemma ScanTx(m: Model, db: Database, tx: Tx, cutoff: int, now: int)
    requires Base(m, db) && TxInv(m, db, tx) && now >= cutoff + m.stuck
    ensures TxInv(m, db, tx.(glimpse := Some(Glimpse(db.row, Sighting(|Committed(db)|, cutoff, now)))))
  {
    assert Committed(db)[..|Committed(db)|] == Committed(db);
  }

  lemma ScanKeepsInv(m: Model, s: State, t: TxId, cutoff: int, now: int)
    requires Inv(m, s) && Enabled(m, s, ScanRow(t, cutoff, now))
    ensures Inv(m, After(m, s, ScanRow(t, cutoff, now)))
  {
    ScanTx(m, s.db, s.txs[t], cutoff, now);
    LocalStep(m, s, t, s.txs[t].(glimpse := Some(Glimpse(s.db.row, Sighting(|Committed(s.db)|, cutoff, now)))));
  }

  lemma OwesEffect(effect: Effect)
    ensures Owes(Owed(effect), effect.notify)
  {
  }

  lemma OperateTracks(m: Model, db: Database, tx: Tx, op: Op)
    requires Tracks(m, db, tx) && tx.owed == [] && Legal(tx.row, op)
    requires op.MarkRequeued? ==> Sighted(m.cfg, StartOf(m), Committed(db) + tx.ops, op.sighting, m.stuck)
    ensures var effect := Apply(m.cfg, tx.row, op);
            Tracks(m, db, tx.(row := effect.row, ops := tx.ops + [op], owed := Owed(effect)))
  {
    assert Committed(db) + (tx.ops + [op]) == (Committed(db) + tx.ops) + [op];
    OperateReached(m, Committed(db) + tx.ops, tx.row, Chain(db) + tx.pending, Names(db.deliveries + tx.queued), op);
  }

  lemma OperateReached(m: Model, log: seq<Op>, row: Row, events: seq<Event>, names: seq<WebhookEvent>, op: Op)
    requires Reached(m, log, row, events, names, []) && Legal(row, op)
    requires op.MarkRequeued? ==> Sighted(m.cfg, StartOf(m), log, op.sighting, m.stuck)
    ensures var effect := Apply(m.cfg, row, op);
            Reached(m, log + [op], effect.row, events, names, Owed(effect))
  {
    var effect := Apply(m.cfg, row, op);
    RunSnoc(m.cfg, StartOf(m), log, op);
    JustifiedSnoc(m.cfg, StartOf(m), log, op, m.stuck);
    var before := EntriesOf(events);
    EffectsAreDecisive(m.cfg, row, op);
    DecisiveConcat(before, effect.entries);
    assert before + OwedEntries([]) == before;
    OwesEffect(effect);
  }

  lemma OweKeepsInv(m: Model, s: State, t: TxId, entry: Entry)
    requires Inv(m, s) && Enabled(m, s, Owe(t, entry))
    ensures Inv(m, After(m, s, Owe(t, entry)))
  {
    var tx := s.txs[t];
    OweOther(m, s.db, tx, entry);
    LocalStep(m, s, t, tx.(owed := [Append(entry)]));
  }

  lemma OweOther(m: Model, db: Database, tx: Tx, entry: Entry)
    requires TxInv(m, db, tx) && tx.owed == [] && !IsDecisive(entry)
    ensures TxInv(m, db, tx.(owed := [Append(entry)]))
  {
    NothingDecisiveOwed(EntriesOf(Chain(db) + tx.pending), entry);
    NothingDecisiveOwed(EntriesOf(tx.pending), entry);
    assert Owes([Append(entry)], false);
  }

  lemma {:induction false} NothingDecisiveOwed(before: seq<Entry>, entry: Entry)
    requires !IsDecisive(entry)
    ensures Decisive(before + OwedEntries([Append(entry)])) == Decisive(before + OwedEntries([]))
  {
    assert OwedEntries([Append(entry)]) == [entry];
    assert before + OwedEntries([]) == before;
    assert (before + [entry])[..|before|] == before;
  }

  /** Uncommitted rows continue the committed sequence numbers. */
  lemma PendingSequence(m: Model, db: Database, pending: seq<Event>, i: nat)
    requires ValidChain(m.hash, Chain(db) + pending) && i < |pending|
    ensures pending[i].hashed.sequence == |Chain(db)| + i + 1
  {
    assert Linked(m.hash, Chain(db) + pending, |Chain(db)| + i);
  }

  /** The highest visible row is the last own insert, if there is one. */
  lemma HighestIsOwn(m: Model, db: Database, tx: Tx, last: Option<Event>)
    requires Holds(db.table, 1, Chain(db)) && ValidChain(m.hash, Chain(db) + tx.pending)
    requires IsHighest(db.table, tx.pending, last) && tx.pending != []
    ensures last == Last(tx.pending)
  {
    var n := |tx.pending| - 1;
    PendingSequence(m, db, tx.pending, n);
    assert tx.pending[n] in tx.pending;
    var e := last.value;
    assert e.hashed.sequence !in db.table;
    var i :| 0 <= i < |tx.pending| && tx.pending[i] == e;
    PendingSequence(m, db, tx.pending, i);
  }

  lemma ReadTx(m: Model, db: Database, tx: Tx, last: Option<Event>)
    requires Base(m, db) && TxInv(m, db, tx) && IsHighest(db.table, tx.pending, last)
    ensures TxInv(m, db, tx.(seen := Read(last)))
  {
    if tx.pending != [] {
      HighestIsOwn(m, db, tx, last);
    }
    assert SeenOk(db, tx.pending, Read(last));
  }

  lemma ReadKeepsInv(m: Model, s: State, t: TxId, last: Option<Event>)
    requires Inv(m, s) && Enabled(m, s, ReadLast(t, last))
    ensures Inv(m, After(m, s, ReadLast(t, last)))
  {
    ReadTx(m, s.db, s.txs[t], last);
    LocalStep(m, s, t, s.txs[t].(seen := Read(last)));
  }

  // ---- Inserting under the unique constraint --------------------------------

  /** An insert that is neither refused nor made to wait continues the one visible chain. */
  lemma InsertContinues(m: Model, db: Database, tx: Tx, last: Option<Event>)
    requires Holds(db.table, 1, Chain(db)) && ValidChain(m.hash, Chain(db) + tx.pending)
    requires tx.seen == Read(last) && SeenOk(db, tx.pending, tx.seen)
    requires (match last case None => 1 case Some(e) => e.hashed.sequence + 1) !in db.table
    ensures last == Last(Chain(db) + tx.pending)
  {
    var n := |Chain(db)|;
    if tx.pending == [] {
      assert Chain(db) + tx.pending == Chain(db);
      if last.Some? {
        var k := last.value.hashed.sequence;
        assert k == n;
        assert db.table[1 + (n - 1)] == Chain(db)[n - 1];
      }
    }
  }

  /** Uncommitted rows of another transaction hold the very next sequence: the insert would wait. */
  lemma OtherHoldsNext(m: Model, db: Database, pending: seq<Event>)
    requires ValidChain(m.hash, Chain(db) + pending) && pending != []
    ensures HasSequence(pending, |Chain(db)| + 1)
  {
    PendingSequence(m, db, pending, 0);
    assert pending[0] in pending;
  }

  lemma InserterIsAlone(m: Model, s: State, t: TxId, e: Event, u: TxId)
    requires AllTx(m, s.db, s.txs) && OneAppender(s)
    requires t in s.txs && u in s.txs && u != t
    requires e.hashed.sequence == |Chain(s.db) + s.txs[t].pending| + 1
    requires !HasSequence(s.txs[u].pending, e.hashed.sequence)
    ensures s.txs[u].pending == []
  {
    if s.txs[u].pending != [] {
      OtherHoldsNext(m, s.db, s.txs[u].pending);
    }
  }

  lemma EntriesOfAppend(events: seq<Event>, e: Event)
    ensures EntriesOf(events + [e]) == EntriesOf(events) + [e.hashed.entry]
  {
  }

  lemma OwesRest(owed: seq<Work>)
    requires owed != [] && owed[0].Append?
    ensures Owes(owed, false) ==> Owes(owed[1..], false)
    ensures Owes(owed, true) ==> Owes(owed[1..], true)
  {
  }

  /** Recording an owed entry moves it from the debts to the events. */
  lemma {:induction false} RecordOwed(events: seq<Event>, owed: seq<Work>, e: Event)
    requires owed != [] && owed[0] == Append(e.hashed.entry)
    ensures EntriesOf(events + [e]) + OwedEntries(owed[1..]) == EntriesOf(events) + OwedEntries(owed)
  {
    EntriesOfAppend(events, e);
    var before, rest := EntriesOf(events), OwedEntries(owed[1..]);
    assert OwedEntries(owed) == [e.hashed.entry] + rest;
    assert (before + [e.hashed.entry]) + rest == before + ([e.hashed.entry] + rest);
  }

  lemma InsertTracks(m: Model, db: Database, tx: Tx, e: Event)
    requires tx.owed != [] && tx.owed[0] == Append(e.hashed.entry)
    requires if tx.locked then Tracks(m, db, tx) else Quiet(tx)
    ensures var done := tx.(pending := tx.pending + [e], owed := tx.owed[1..], seen := NotRead);
            if tx.locked then Tracks(m, db, done) else Quiet(done)
  {
    OwesRest(tx.owed);
    RecordOwed(tx.pending, tx.owed, e);
    RecordOwed(Chain(db) + tx.pending, tx.owed, e);
    assert Chain(db) + (tx.pending + [e]) == (Chain(db) + tx.pending) + [e];
  }

  lemma InsertTx(m: Model, db: Database, tx: Tx, now: int, ip: Option<string>, userAgent: Option<string>)
    requires Base(m, db) && TxInv(m, db, tx)
    requires tx.owed != [] && tx.owed[0].Append? && tx.seen.Read?
    requires Candidate(m, tx, now, ip, userAgent).hashed.sequence !in db.table
    ensures var e := Candidate(m, tx, now, ip, userAgent);
            && TxInv(m, db, tx.(pending := tx.pending + [e], owed := tx.owed[1..], seen := NotRead))
            && e.hashed.sequence == |Chain(db) + tx.pending| + 1
  {
    var e := Candidate(m, tx, now, ip, userAgent);
    var chain := Chain(db) + tx.pending;
    InsertContinues(m, db, tx, tx.seen.last);
    AppendKeepsChain(m.hash, chain, tx.owed[0].entry, m.scope, now, ip, userAgent);
    assert chain + [e] == Chain(db) + (tx.pending + [e]);
    InsertTracks(m, db, tx, e);
    NextSequence(m, chain, e);
  }

  lemma InsertKeepsInv(m: Model, s: State, t: TxId, now: int, ip: Option<string>, userAgent: Option<string>)
    requires Inv(m, s) && Enabled(m, s, Insert(t, now, ip, userAgent))
    ensures Inv(m, After(m, s, Insert(t, now, ip, userAgent)))
  {
    var tx := s.txs[t];
    var e := Candidate(m, tx, now, ip, userAgent);
    if e.hashed.sequence in s.db.table || HasSequence(tx.pending, e.hashed.sequence) {
      AbortKeepsInv(m, s, t);
    } else {
      InsertTx(m, s.db, tx, now, ip, userAgent);
      forall u | u in s.txs && u != t ensures s.txs[u].pending == [] {
        InserterIsAlone(m, s, t, e, u);
      }
      LocalStep(m, s, t, tx.(pending := tx.pending + [e], owed := tx.owed[1..], seen := NotRead));
    }
  }

  lemma NextSequence(m: Model, chain: seq<Event>, e: Event)
    requires ValidChain(m.hash, chain + [e])
    ensures e.hashed.sequence == |chain| + 1
  {
    assert Linked(m.hash, chain + [e], |chain|);
  }

  // ---- Webhook moves --------------------------------------------------------

  lemma NamesConcat(a: seq<Delivery>, b: seq<Delivery>)
    ensures Names(a + b) == Names(a) + Names(b)
  {
  }

  lemma QueueTx(m: Model, db: Database, tx: Tx)
    requires DeliveriesOk(db.deliveries) && TxInv(m, db, tx)
    requires tx.owed != [] && tx.owed[0].Notify?
    ensures var all := QueueSessionEvent(m.cfg.hasUrl, db.deliveries + tx.queued, tx.row.status);
            TxInv(m, db, tx.(queued := all[|db.deliveries|..], owed := tx.owed[1..]))
  {
    var before := db.deliveries + tx.queued;
    var all := QueueSessionEvent(m.cfg.hasUrl, before, tx.row.status);
    QueueAnnounces(m.cfg.hasUrl, before, tx.row.status);
    var queued := all[|db.deliveries|..];
    assert db.deliveries + queued == all;
    assert tx.owed == [Notify] && tx.owed[1..] == [];
    assert OwedEntries(tx.owed) == [];
    forall d | d in queued ensures DeliveryOk(d) {
      assert d in tx.queued || d == Delivery(EventOf(tx.row.status).value, tx.row.status, Waiting, 0);
    }
  }

  lemma QueueKeepsInv(m: Model, s: State, t: TxId)
    requires Inv(m, s) && Enabled(m, s, QueueWebhook(t))
    ensures Inv(m, After(m, s, QueueWebhook(t)))
  {
    var tx := s.txs[t];
    QueueTx(m, s.db, tx);
    var all := QueueSessionEvent(m.cfg.hasUrl, s.db.deliveries + tx.queued, tx.row.status);
    LocalStep(m, s, t, tx.(queued := all[|s.db.deliveries|..], owed := tx.owed[1..]));
  }

  lemma DeliveringTx(m: Model, db: Database, tx: Tx, f: Fetched)
    requires TxInv(m, db, tx) && f.index < |db.deliveries| && f.attempts == 0
    ensures TxInv(m, db, tx.(delivering := Some(f)))
  {
  }

  lemma WaitingIsUntried(deliveries: seq<Delivery>, i: nat)
    requires DeliveriesOk(deliveries) && i < |deliveries| && !deliveries[i].status.Delivered?
    ensures deliveries[i].attempts == 0
  {
    assert DeliveryOk(deliveries[i]);
  }

  lemma FetchKeepsInv(m: Model, s: State, t: TxId, index: nat)
    requires Inv(m, s) && Enabled(m, s, Fetch(t, index))
    ensures Inv(m, After(m, s, Fetch(t, index)))
  {
    var d := s.db.deliveries[index];
    if !d.status.Delivered? {
      WaitingIsUntried(s.db.deliveries, index);
      var f := Fetched(index, d.attempts, Untried);
      DeliveringTx(m, s.db, s.txs[t], f);
      LocalStep(m, s, t, s.txs[t].(delivering := Some(f)));
    }
  }

  lemma PostedInv(m: Model, s: State, posts: seq<Posting>)
    requires Inv(m, s)
    ensures Inv(m, s.(posts := posts))
  {
  }

  lemma PostTx(m: Model, db: Database, tx: Tx, tried: Fetched, report: Entry)
    requires TxInv(m, db, tx) && tx.owed == [] && !IsDecisive(report)
    requires tried.index < |db.deliveries| && tried.attempts == 0
    ensures TxInv(m, db, tx.(delivering := Some(tried), owed := [Append(report)]))
  {
    DeliveringTx(m, db, tx, tried);
    OweOther(m, db, tx.(delivering := Some(tried)), report);
  }

  lemma PostKeepsInv(m: Model, s: State, t: TxId, accepted: bool, report: Entry)
    requires Inv(m, s) && Enabled(m, s, Post(t, accepted, report))
    ensures Inv(m, After(m, s, Post(t, accepted, report)))
  {
    var tx := s.txs[t];
    var f := tx.delivering.value;
    var tried := f.(attempt := if accepted then Accepted else Refused);
    PostTx(m, s.db, tx, tried, report);
    var posts := s.posts + [Posting(f.index, s.db.deliveries[f.index].status)];
    PostedInv(m, s, posts);
    LocalStep(m, s.(posts := posts), t, tx.(delivering := Some(tried), owed := [Append(report)]));
  }

  // ---- Commit ---------------------------------------------------------------

  lemma {:induction false} MergeHolds(m: Model, db: Database, pending: seq<Event>)
    requires Holds(db.table, 1, Chain(db)) && ValidChain(m.hash, Chain(db) + pending)
    ensures Holds(Merge(db.table, pending), 1, Chain(db) + pending)
    decreases |pending|
  {
    if pending == [] {
      assert Chain(db) + pending == Chain(db);
    } else {
      var n := |pending| - 1;
      var chain := Chain(db) + pending;
      PrefixIsValid(m.hash, chain, |chain| - 1);
      assert chain[..|chain| - 1] == Chain(db) + pending[..n];
      MergeHolds(m, db, pending[..n]);
      PendingSequence(m, db, pending, n);
      HoldsMore(Merge(db.table, pending[..n]), Chain(db) + pending[..n], pending[n]);
      assert Chain(db) + pending == (Chain(db) + pending[..n]) + [pending[n]];
    }
  }

  lemma HoldsMore(table: Table, events: seq<Event>, e: Event)
    requires Holds(table, 1, events) && e.hashed.sequence == |events| + 1
    ensures Holds(table[e.hashed.sequence := e], 1, events + [e])
  {
  }

  lemma MergedChain(m: Model, db: Database, tx: Tx)
    requires Holds(db.table, 1, Chain(db)) && ValidChain(m.hash, Chain(db) + tx.pending)
    ensures Chain(CommitTo(db, tx)) == Chain(db) + tx.pending
    ensures Holds(CommitTo(db, tx).table, 1, Chain(db) + tx.pending)
  {
    MergeHolds(m, db, tx.pending);
    ListedChain(Merge(db.table, tx.pending), 1, Chain(db) + tx.pending);
  }

  lemma CommittedDeliveries(m: Model, db: Database, tx: Tx)
    requires DeliveriesOk(db.deliveries) && DeliveriesOk(tx.queued) && !Raised(tx)
    requires tx.delivering.Some? ==> tx.delivering.value.attempts == 0
    ensures DeliveriesOk(CommitTo(db, tx).deliveries)
    ensures Names(CommitTo(db, tx).deliveries) == Names(db.deliveries + tx.queued)
  {
    var after := CommitTo(db, tx).deliveries;
    forall d | d in after ensures DeliveryOk(d) {
      var i :| 0 <= i < |after| && after[i] == d;
      if i < |db.deliveries| {
        assert db.deliveries[i] in db.deliveries;
      } else {
        assert after[i] == tx.queued[i - |db.deliveries|];
      }
    }
  }

  lemma {:induction false} DecisiveSplit(chain: seq<Event>, pending: seq<Event>, rest: seq<Entry>)
    ensures Decisive(EntriesOf(chain + pending) + rest)
         == Decisive(EntriesOf(chain)) + Decisive(EntriesOf(pending) + rest)
  {
    EntriesConcat(chain, pending);
    assert EntriesOf(chain + pending) + rest == EntriesOf(chain) + (EntriesOf(pending) + rest);
    DecisiveConcat(EntriesOf(chain), EntriesOf(pending) + rest);
  }

  lemma CommittedOps(db: Database, tx: Tx)
    requires tx.locked || tx.ops == []
    ensures Committed(CommitTo(db, tx)) == Committed(db) + tx.ops
  {
    var log := db.log + [Batch(tx.ticket, tx.ops)];
    assert log[..|log| - 1] == db.log;
  }

  lemma GlimpseStaysOk(m: Model, log: seq<Op>, ops: seq<Op>, glimpse: Option<Glimpse>)
    requires GlimpseOk(m, log, glimpse)
    ensures GlimpseOk(m, log + ops, glimpse)
  {
    if glimpse.Some? {
      var seen := glimpse.value.sighting.seen;
      assert (log + ops)[..seen] == log[..seen];
    }
  }

  lemma CommitKeepsBase(m: Model, db: Database, tx: Tx)
    requires Base(m, db) && TxInv(m, db, tx) && tx.owed == [] && !Raised(tx)
    ensures Base(m, CommitTo(db, tx))
  {
    CommittedOps(db, tx);
    MergedChain(m, db, tx);
    CommittedDeliveries(m, db, tx);
    DecisiveSplit(Chain(db), tx.pending, []);
    var all := EntriesOf(Chain(db) + tx.pending);
    assert all + [] == all;
    if !tx.locked {
      assert Committed(db) + tx.ops == Committed(db);
      assert db.deliveries + tx.queued == db.deliveries;
      assert OwedEntries(tx.owed) == [];
    }
  }

  lemma {:induction false} MergeKeepsRows(m: Model, db: Database, pending: seq<Event>, k: int)
    requires Holds(db.table, 1, Chain(db)) && ValidChain(m.hash, Chain(db) + pending)
    requires k in db.table
    ensures k in Merge(db.table, pending) && Merge(db.table, pending)[k] == db.table[k]
    decreases |pending|
  {
    if pending != [] {
      var n := |pending| - 1;
      var chain := Chain(db) + pending;
      PrefixIsValid(m.hash, chain, |chain| - 1);
      assert chain[..|chain| - 1] == Chain(db) + pending[..n];
      MergeKeepsRows(m, db, pending[..n], k);
      PendingSequence(m, db, pending, n);
    }
  }

  lemma {:induction false} QuietEntries(chain: seq<Event>, quiet: seq<Event>, pending: seq<Event>, rest: seq<Entry>)
    requires Decisive(EntriesOf(quiet)) == []
    ensures Decisive(EntriesOf((chain + quiet) + pending) + rest) == Decisive(EntriesOf(chain + pending) + rest)
  {
    DecisiveSplit(chain, pending, rest);
    DecisiveSplit(chain + quiet, pending, rest);
    EntriesConcat(chain, quiet);
    DecisiveConcat(EntriesOf(chain), EntriesOf(quiet));
  }

  /** A quiet transaction's commit is invisible to the serial run the lock holder follows. */
  lemma CommitKeepsTracking(m: Model, db: Database, tx: Tx, other: Tx)
    requires Base(m, db) && TxInv(m, db, tx) && tx.owed == [] && !tx.locked && !Raised(tx)
    requires Tracks(m, db, other)
    ensures Tracks(m, CommitTo(db, tx), other)
  {
    var after := CommitTo(db, tx);
    MergedChain(m, db, tx);
    CommittedDeliveries(m, db, tx);
    assert after.log == db.log;
    NamesConcat(db.deliveries, other.queued);
    NamesConcat(after.deliveries, other.queued);
    assert db.deliveries + tx.queued == db.deliveries;
    assert EntriesOf(tx.pending) + OwedEntries([]) == EntriesOf(tx.pending);
    QuietEntries(Chain(db), tx.pending, other.pending, OwedEntries(other.owed));
  }

  lemma CommitKeepsOther(m: Model, db: Database, tx: Tx, other: Tx)
    requires Base(m, db) && TxInv(m, db, tx) && tx.owed == [] && !Raised(tx)
    requires TxInv(m, db, other) && !(tx.locked && other.locked)
    requires tx.pending == [] || other.pending == []
    ensures TxInv(m, CommitTo(db, tx), other)
  {
    MergedChain(m, db, tx);
    CommittedDeliveries(m, db, tx);
    CommittedOps(db, tx);
    GlimpseStaysOk(m, Committed(db), tx.ops, other.glimpse);
    assert tx.pending == [] ==> Chain(db) + tx.pending == Chain(db);
    assert other.pending == [] ==> (Chain(db) + tx.pending) + other.pending == Chain(db) + tx.pending;
    if other.locked {
      CommitKeepsTracking(m, db, tx, other);
    }
    if tx.locked && Terminal(db.row.status) {
      HolderStaysTerminal(m, db, tx);
    }
    if other.seen.Read? && other.pending == [] && other.seen.last.Some? {
      MergeKeepsRows(m, db, tx.pending, other.seen.last.value.hashed.sequence);
    }
  }

  lemma CommitKeepsLocks(s: State, t: TxId)
    requires LocksOk(s) && OneAppender(s) && t in s.txs
    ensures LocksOk(Abort(s, t).(db := CommitTo(s.db, s.txs[t])))
    ensures OneAppender(Abort(s, t).(db := CommitTo(s.db, s.txs[t])))
  {
  }

  lemma CommitKeepsOthers(m: Model, s: State, t: TxId)
    requires Inv(m, s) && t in s.txs && s.txs[t].owed == [] && !Raised(s.txs[t])
    ensures AllTx(m, CommitTo(s.db, s.txs[t]), Without(s.txs, t))
  {
    var rest := Without(s.txs, t);
    forall u | u in rest ensures TxInv(m, CommitTo(s.db, s.txs[t]), rest[u]) {
      CommitKeepsOther(m, s.db, s.txs[t], s.txs[u]);
    }
  }

  lemma CommitKeepsInv(m: Model, s: State, t: TxId)
    requires Inv(m, s) && Enabled(m, s, Commit(t))
    ensures Inv(m, After(m, s, Commit(t)))
  {
    CommitKeepsBase(m, s.db, s.txs[t]);
    CommitKeepsLocks(s, t);
    CommitKeepsOthers(m, s, t);
  }

  // ---- Every reachable state ------------------------------------------------

  lemma InitialInv(m: Model)
    ensures Inv(m, Initial(m))
  {
    var s := Initial(m);
    var chain := [CreationEvent(m)];
    ListedChain(s.db.table, 1, chain);
    assert Linked(m.hash, chain, 0);
    assert EntriesOf(chain)[..0] == [];
    assert Decisive(EntriesOf(chain)) == [];
  }

  lemma StepKeepsInv(m: Model, s: State, move: Move)
    requires Inv(m, s) && Enabled(m, s, move)
    ensures Inv(m, After(m, s, move))
  {
    match move
    case Begin(t) => BeginKeepsInv(m, s, t);
    case Lock(t) => LockKeepsInv(m, s, t);
    case Operate(t, op) => OperateKeepsInv(m, s, t, op);
    case Observe(t) => LocalStep(m, s, t, s.txs[t].(sawTerminal := Terminal(s.db.row.status)));
    case ScanRow(t, cutoff, now) => ScanKeepsInv(m, s, t, cutoff, now);
    case Owe(t, entry) => OweKeepsInv(m, s, t, entry);
    case ReadLast(t, last) => ReadKeepsInv(m, s, t, last);
    case Insert(t, now, ip, userAgent) => InsertKeepsInv(m, s, t, now, ip, userAgent);
    case QueueWebhook(t) => QueueKeepsInv(m, s, t);
    case Fetch(t, index) => FetchKeepsInv(m, s, t, index);
    case Post(t, accepted, report) => PostKeepsInv(m, s, t, accepted, report);
    case Commit(t) => CommitKeepsInv(m, s, t);
    case Rollback(t) => AbortKeepsInv(m, s, t);
  }

  /** Any interleaving of any number of transactions. */
  ghost predicate IsRun(m: Model, states: seq<State>, moves: seq<Move>) {
    && |states| == |moves| + 1
    && states[0] == Initial(m)
    && forall i :: 0 <= i < |moves| ==> Enabled(m, states[i], moves[i])
                                        && states[i + 1] == After(m, states[i], moves[i])
  }

  lemma {:induction false} RunKeepsInv(m: Model, states: seq<State>, moves: seq<Move>)
    requires IsRun(m, states, moves)
    ensures Inv(m, states[|states| - 1])
    decreases |moves|
  {
    if moves == [] {
      InitialInv(m);
    } else {
      var n := |moves| - 1;
      assert IsRun(m, states[..n + 1], moves[..n]);
      RunKeepsInv(m, states[..n + 1], moves[..n]);
      StepKeepsInv(m, states[n], moves[n]);
    }
  }
}
