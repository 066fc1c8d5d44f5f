/**
 The hash-chained audit log of one session (app/engines/audit.py).  The hash is
 any function; a result that injectivity would give names the collision instead.
 */
module Audit {
  import opened Enums
  import opened Decision

  datatype EventType =
    | KycSessionCreated | ConsentGiven | ConsentDeclined
    | DocumentUploaded | OcrCompleted | DocumentVerified | DocumentRejected
    | SelfieCaptured | LivenessPassed | LivenessFailed | FaceMatchPassed | FaceMatchFailed
    | OtpSent | OtpVerified | OtpFailed
    | KycDecision | DecisionBlocked | DecisionOverridden | SessionExpired
    | ContractGenerated | HashGenerated | DocumentSigned | Timestamped | DocumentArchived
    | DataPurged | ProcessingFailed | WebhookDelivered | WebhookFailed

  type Hash = string

  datatype Payload =
    | DecisionFields(status: SessionStatus, reasons: seq<Reason>, hundredths: int, level: RiskLevel)
    | BlockedFields(current: SessionStatus, attempted: SessionStatus, reasons: seq<Reason>)
    | OverrideFields(previous: SessionStatus, target: SessionStatus, reason: string)
    | ExpiryFields(expiredAt: int)
    | PurgeFields(retentionDays: int, jurisdiction: string, artifactSha256: seq<Hash>)
    | OtherFields(json: string)

  /** What a caller asks to have recorded. */
  datatype Entry = Entry(eventType: EventType, payload: Payload, actor: string, documentHash: Option<Hash>)

  datatype Scope = Scope(tenantId: string, sessionId: string)

  /** Exactly the fields that enter the hash; `ip` and `userAgent` of an event do not. */
  datatype Hashed = Hashed(sequence: int, entry: Entry, scope: Scope, createdAt: int, previous: Option<Hash>)

  datatype Event = Event(hashed: Hashed, eventHash: Hash, ip: Option<string>, userAgent: Option<string>)

  type HashFunction = Hashed -> Hash

  /** Two histories hold different records with one hash. */
  ghost predicate Collision(hash: HashFunction, a: seq<Event>, b: seq<Event>) {
    exists i, j :: 0 <= i < |a| && 0 <= j < |b| && a[i].hashed != b[j].hashed
                   && hash(a[i].hashed) == hash(b[j].hashed)
  }

  /** The event that follows `last` (the highest sequence read so far). */
  function NextEvent(
    hash: HashFunction, last: Option<Event>, entry: Entry, scope: Scope, now: int,
    ip: Option<string>, userAgent: Option<string>): Event
  {
    var hashed := match last
      case None => Hashed(1, entry, scope, now, None)
      case Some(e) => Hashed(e.hashed.sequence + 1, entry, scope, now, Some(e.eventHash));
    Event(hashed, hash(hashed), ip, userAgent)
  }

  function Last(events: seq<Event>): Option<Event> {
    if events == [] then None else Some(events[|events| - 1])
  }

  function Head(events: seq<Event>): Option<Hash> {
    if events == [] then None else Some(events[|events| - 1].eventHash)
  }

  /** Event `i` sits at its own sequence, points at its predecessor and hashes correctly. */
  predicate Linked(hash: HashFunction, events: seq<Event>, i: nat)
    requires i < |events|
  {
    && events[i].hashed.sequence == i + 1
    && events[i].hashed.previous == Head(events[..i])
    && events[i].eventHash == hash(events[i].hashed)
  }

  ghost predicate ValidChain(hash: HashFunction, events: seq<Event>) {
    forall i: nat | i < |events| :: Linked(hash, events, i)
  }

  datatype ChainReport =
    | Valid(events: nat, head: Option<Hash>)
    | Broken(events: nat, brokenAt: int)

  /** The append-only trail a transaction sees. */
  class AuditTrail {
    const hash: HashFunction
    const scope: Scope
    var events: seq<Event>

    constructor (hash: HashFunction, scope: Scope)
      ensures this.hash == hash && this.scope == scope && events == []
    {
      this.hash := hash;
      this.scope := scope;
      events := [];
    }

    method RecordEvent(entry: Entry, now: int, ip: Option<string>, userAgent: Option<string>)
      modifies this
      ensures events == old(events) + [NextEvent(hash, Last(old(events)), entry, scope, now, ip, userAgent)]
      ensures ValidChain(hash, old(events)) ==> ValidChain(hash, events)
    {
      ghost var was := events;
      if ValidChain(hash, was) {
        AppendKeepsChain(hash, events, entry, scope, now, ip, userAgent);
      }
      var last := if |events| > 0 then Some(events[|events| - 1]) else None;
      events := events + [NextEvent(hash, last, entry, scope, now, ip, userAgent)];
    }

    /** Recomputes the whole chain; a break is reported at the first bad link. */
    method VerifyChain() returns (report: ChainReport)
      ensures report.events == |events|
      ensures report.Valid? <==> ValidChain(hash, events)
      ensures report.Valid? ==> report.head == Head(events)
      ensures report.Broken? ==>
                exists k: nat :: k < |events| && ValidChain(hash, events[..k]) && !Linked(hash, events, k)
                                 && report.brokenAt == events[k].hashed.sequence
    {
      var previous: Option<Hash> := None;
      for index := 0 to |events|
        invariant previous == Head(events[..index])
        invariant forall i: nat | i < index :: Linked(hash, events, i)
      {
        var event := events[index];
        if event.hashed.sequence != index + 1 || event.hashed.previous != previous
           || event.eventHash != hash(event.hashed)
        {
          assert !Linked(hash, events, index);
          PrefixLinks(hash, events, index);
          return Broken(|events|, event.hashed.sequence);
        }
        previous := Some(event.eventHash);
      }
      assert events[..|events|] == events;
      return Valid(|events|, previous);
    }
  }

  lemma PrefixLinks(hash: HashFunction, events: seq<Event>, k: nat)
    requires k <= |events|
    requires forall i: nat | i < k :: Linked(hash, events, i)
    ensures ValidChain(hash, events[..k])
  {
    forall i: nat | i < k ensures Linked(hash, events[..k], i) {
      assert Linked(hash, events, i);
      assert events[..k][..i] == events[..i];
    }
  }

  lemma AppendKeepsChain(
    hash: HashFunction, events: seq<Event>, entry: Entry, scope: Scope, now: int,
    ip: Option<string>, userAgent: Option<string>)
    requires ValidChain(hash, events)
    ensures ValidChain(hash, events + [NextEvent(hash, Last(events), entry, scope, now, ip, userAgent)])
  {
    var longer := events + [NextEvent(hash, Last(events), entry, scope, now, ip, userAgent)];
    forall i: nat | i < |longer| ensures Linked(hash, longer, i) {
      assert longer[..i] == events[..i];
      if i < |events| {
        assert Linked(hash, events, i);
      } else if i > 0 {
        assert events[..i] == events;
        assert Linked(hash, events, i - 1);
      }
    }
  }

  // ---- What a head hash proves ----------------------------------------------

  function HashedFields(events: seq<Event>): seq<Hashed> {
    seq(|events|, i requires 0 <= i < |events| => events[i].hashed)
  }

  /** A prefix of a valid chain is valid: truncation alone is invisible to `verify_chain`. */
  lemma PrefixIsValid(hash: HashFunction, events: seq<Event>, k: nat)
    requires ValidChain(hash, events) && k <= |events|
    ensures ValidChain(hash, events[..k])
  {
    PrefixLinks(hash, events, k);
  }

  lemma CollisionInPrefix(hash: HashFunction, a: seq<Event>, b: seq<Event>, m: nat, n: nat)
    requires m <= |a| && n <= |b| && Collision(hash, a[..m], b[..n])
    ensures Collision(hash, a, b)
  {
    var i, j :| 0 <= i < m && 0 <= j < n && a[..m][i].hashed != b[..n][j].hashed
                && hash(a[..m][i].hashed) == hash(b[..n][j].hashed);
    assert a[..m][i] == a[i] && b[..n][j] == b[j];
  }

  /**
   Equal head hashes bind the whole history: two valid chains with one head have the
   same length and the same hashed fields throughout, or exhibit a hash collision.
   */
  lemma {:induction false} HeadBindsHistory(hash: HashFunction, a: seq<Event>, b: seq<Event>)
    requires ValidChain(hash, a) && ValidChain(hash, b)
    requires Head(a) == Head(b)
    ensures HashedFields(a) == HashedFields(b) || Collision(hash, a, b)
    decreases |a|
  {
    if a != [] {
      var m, n := |a| - 1, |b| - 1;
      assert Linked(hash, a, m) && Linked(hash, b, n);
      PrefixIsValid(hash, a, m);
      PrefixIsValid(hash, b, n);
      if a[m].hashed == b[n].hashed {
        HeadBindsHistory(hash, a[..m], b[..n]);
        if Collision(hash, a[..m], b[..n]) {
          CollisionInPrefix(hash, a, b, m, n);
        }
        assert a == a[..m] + [a[m]] && b == b[..n] + [b[n]];
        FieldsOfAppend(a[..m], a[m]);
        FieldsOfAppend(b[..n], b[n]);
      }
    }
  }

  lemma FieldsOfAppend(events: seq<Event>, last: Event)
    ensures HashedFields(events + [last]) == HashedFields(events) + [last.hashed]
  {
  }

  /** What a stored checkpoint keeps of a session's chain. */
  datatype Checkpoint = Checkpoint(events: nat, head: Option<Hash>)

  ghost predicate Extends(hash: HashFunction, events: seq<Event>, stored: Checkpoint) {
    stored.events <= |events| && Head(events[..stored.events]) == stored.head
  }

  /**
   A later valid chain that extends the sealed history passes against the stored count
   and head; one that passes extends it or exhibits a collision.  In particular no
   truncation passes.
   */
  lemma CheckpointDetectsRewriting(hash: HashFunction, sealed: seq<Event>, later: seq<Event>)
    requires ValidChain(hash, sealed) && ValidChain(hash, later)
    ensures HashedFields(sealed) <= HashedFields(later) ==> Extends(hash, later, Checkpoint(|sealed|, Head(sealed)))
    ensures Extends(hash, later, Checkpoint(|sealed|, Head(sealed))) ==>
              HashedFields(sealed) <= HashedFields(later) || Collision(hash, sealed, later)
  {
    var n := |sealed|;
    if Extends(hash, later, Checkpoint(n, Head(sealed))) {
      PrefixIsValid(hash, later, n);
      HeadBindsHistory(hash, sealed, later[..n]);
      if Collision(hash, sealed, later[..n]) {
        assert sealed[..n] == sealed;
        CollisionInPrefix(hash, sealed, later, n, n);
      }
      assert HashedFields(later)[..n] == HashedFields(later[..n]);
    }
    if HashedFields(sealed) <= HashedFields(later) && n > 0 {
      assert Linked(hash, sealed, n - 1) && Linked(hash, later, n - 1);
      assert HashedFields(later)[n - 1] == HashedFields(sealed)[n - 1];
    }
  }

  // ---- Clearing what is not hashed ------------------------------------------

  function ClearIdentifiers(events: seq<Event>): (cleared: seq<Event>)
    ensures |cleared| == |events|
    ensures forall i :: 0 <= i < |events| ==> cleared[i] == events[i].(ip := None, userAgent := None)
  {
    seq(|events|, i requires 0 <= i < |events| => events[i].(ip := None, userAgent := None))
  }

  /** Wiping ip and user agent neither breaks a valid chain nor repairs a broken one. */
  lemma ClearingKeepsVerdict(hash: HashFunction, events: seq<Event>)
    ensures ValidChain(hash, ClearIdentifiers(events)) <==> ValidChain(hash, events)
    ensures Head(ClearIdentifiers(events)) == Head(events)
    ensures HashedFields(ClearIdentifiers(events)) == HashedFields(events)
  {
    var cleared := ClearIdentifiers(events);
    forall i: nat | i < |events| ensures Linked(hash, cleared, i) <==> Linked(hash, events, i) {
      if i > 0 {
        assert cleared[..i][i - 1].eventHash == events[..i][i - 1].eventHash;
      }
    }
  }

  // ---- The stored table -----------------------------------------------------

  /** Rows of one session under the unique (session, sequence) constraint. */
  type Table = map<int, Event>

  lemma {:induction false} LeastExists(keys: set<int>)
    requires keys != {}
    ensures exists k :: k in keys && forall j :: j in keys ==> k <= j
    decreases |keys|
  {
    assert exists k: int :: k in keys by {
      if forall k: int :: k !in keys {
        assert false;
      }
    }
    var k :| k in keys;
    var rest := keys - {k};
    assert keys == rest + {k};
    if rest == {} {
      assert forall j :: j in keys ==> j == k;
    } else {
      LeastExists(rest);
      var m :| m in rest && forall j :: j in rest ==> m <= j;
      assert forall j :: j in keys ==> j == k || j in rest;
      if k < m {
        assert k in keys && forall j :: j in keys ==> k <= j;
      } else {
        assert m in keys && forall j :: j in keys ==> m <= j;
      }
    }
  }

  ghost function Least(keys: set<int>): (k: int)
    requires keys != {}
    ensures k in keys && forall j :: j in keys ==> k <= j
  {
    LeastExists(keys);
    var k :| k in keys && forall j :: j in keys ==> k <= j;
    k
  }

  /** `list_events`: the rows in ascending sequence. */
  ghost function ListEvents(table: Table): seq<Event>
    decreases |table|
  {
    if table.Keys == {} then []
    else
      var k := Least(table.Keys);
      assert (table - {k}).Keys == table.Keys - {k};
      assert |(table - {k}).Keys| < |table.Keys|;
      [table[k]] + ListEvents(table - {k})
  }

  /** A table that holds a chain under its own sequences lists as that chain. */
  ghost predicate Holds(table: Table, from: int, events: seq<Event>) {
    && (forall k :: k in table <==> from <= k < from + |events|)
    && (forall i :: 0 <= i < |events| ==> from + i in table && table[from + i] == events[i])
  }

  lemma {:induction false} ListedChain(table: Table, from: int, events: seq<Event>)
    requires Holds(table, from, events)
    ensures ListEvents(table) == events
    decreases |events|
  {
    if events == [] {
      assert forall k :: k !in table.Keys;
    } else {
      assert table[from + 0] == events[0];
      var k := Least(table.Keys);
      assert k == from;
      ListedChain(table - {k}, from + 1, events[1..]);
      assert events == [events[0]] + events[1..];
    }
  }
}
