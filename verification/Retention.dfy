/**
 The retention purge (app/services/retention.py): blobs deleted and counted,
 personal data wiped, the audit chain kept, and the backlog worked off in batches.
 */
module Retention {
  import opened Enums
  import opened Audit

  /** What a vault answers to a delete; `Refused` is any exception. */
  datatype Answer = Removed | AlreadyGone | Refused

  /** Answer to the delete of the i-th artifact of the k-th session. */
  type Vaults = (nat, nat) -> Answer

  datatype Tally = Tally(deleted: nat, missing: nat, failed: nat, freed: nat)

  const ZERO := Tally(0, 0, 0, 0)

  function Plus(x: Tally, y: Tally): Tally {
    Tally(x.deleted + y.deleted, x.missing + y.missing, x.failed + y.failed, x.freed + y.freed)
  }

  datatype ArtifactRow = ArtifactRow(sha256: Hash, size: nat, purgedAt: Option<int>)

  type Fields = map<string, string>

  datatype DocumentRow = DocumentRow(ocr: Fields, verification: Fields)

  /** A session row with the rows that hang off it. */
  datatype Dossier = Dossier(
    scope: Scope, terminal: bool, createdAt: int, retentionDays: int, jurisdiction: string,
    identity: Fields, internal: Fields, metadata: Fields, consent: Fields,
    documents: seq<DocumentRow>, biometrics: seq<Fields>, challenges: seq<string>,
    artifacts: seq<ArtifactRow>, events: seq<Event>, purgedAt: Option<int>)

  const DAY := 86400

  predicate Eligible(d: Dossier, now: int) {
    d.purgedAt.None? && d.terminal && d.createdAt + d.retentionDays * DAY <= now
  }

  // ---- One session ----------------------------------------------------------

  /** A blob whose delete was refused keeps its mark open; a missing one is as good as deleted. */
  function RowAfter(row: ArtifactRow, answer: Answer, now: int): ArtifactRow {
    if row.purgedAt.Some? || answer.Refused? then row else row.(purgedAt := Some(now))
  }

  function RowsAfter(rows: seq<ArtifactRow>, k: nat, vaults: Vaults, now: int): (after: seq<ArtifactRow>)
    ensures |after| == |rows|
    ensures forall i :: 0 <= i < |rows| ==> after[i].sha256 == rows[i].sha256
  {
    if rows == [] then []
    else
      var n := |rows| - 1;
      RowsAfter(rows[..n], k, vaults, now) + [RowAfter(rows[n], vaults(k, n), now)]
  }

  function CountOf(row: ArtifactRow, answer: Answer): Tally {
    if row.purgedAt.Some? then ZERO
    else
      match answer
      case Removed => Tally(1, 0, 0, row.size)
      case AlreadyGone => Tally(0, 1, 0, 0)
      case Refused => Tally(0, 0, 1, 0)
  }

  function TallyOf(rows: seq<ArtifactRow>, k: nat, vaults: Vaults): Tally {
    if rows == [] then ZERO
    else
      var n := |rows| - 1;
      Plus(TallyOf(rows[..n], k, vaults), CountOf(rows[n], vaults(k, n)))
  }

  /** Artifacts not marked purged, and the bytes of those purged. */
  function Open(rows: seq<ArtifactRow>): nat {
    if rows == [] then 0
    else Open(rows[..|rows| - 1]) + (if rows[|rows| - 1].purgedAt.None? then 1 else 0)
  }

  function WithoutIdentifiers(consent: Fields): Fields {
    consent - {"ip", "user_agent"}
  }

  /** Nothing personal is left; the fact of consent is. */
  ghost predicate Wiped(before: Dossier, after: Dossier) {
    && after.identity == map[] && after.internal == map[] && after.metadata == map[] && after.challenges == []
    && (forall key :: key in after.consent <==> key in before.consent && key !in {"ip", "user_agent"})
    && (forall key :: key in after.consent ==> after.consent[key] == before.consent[key])
    && |after.documents| == |before.documents| && |after.biometrics| == |before.biometrics|
    && (forall i :: 0 <= i < |after.documents| ==> after.documents[i] == DocumentRow(map[], map[]))
    && (forall i :: 0 <= i < |after.biometrics| ==> after.biometrics[i] == map[])
    && (forall i :: 0 <= i < |after.events| ==> after.events[i].ip == None && after.events[i].userAgent == None)
  }

  function Sha256s(rows: seq<ArtifactRow>): seq<Hash> {
    seq(|rows|, i requires 0 <= i < |rows| => rows[i].sha256)
  }

  function Evidence(d: Dossier): Entry {
    Entry(DataPurged, PurgeFields(d.retentionDays, d.jurisdiction, Sha256s(d.artifacts)), "SYSTEM", None)
  }

  function WithEvidence(hash: HashFunction, d: Dossier, now: int): seq<Event> {
    d.events + [NextEvent(hash, Last(d.events), Evidence(d), d.scope, now, None, None)]
  }

  function Wipe(d: Dossier, now: int): Dossier {
    d.(identity := map[], internal := map[], metadata := map[], consent := WithoutIdentifiers(d.consent),
       documents := seq(|d.documents|, _ => DocumentRow(map[], map[])),
       biometrics := seq(|d.biometrics|, _ => map[]), challenges := [],
       events := ClearIdentifiers(d.events), purgedAt := Some(now))
  }

  /** What `_purge_session` makes of a session. */
  function Purged(hash: HashFunction, d: Dossier, k: nat, vaults: Vaults, now: int): Dossier {
    Wipe(d.(events := WithEvidence(hash, d, now), artifacts := RowsAfter(d.artifacts, k, vaults, now)), now)
  }

  /** Conservation: every open artifact is counted once, and exactly the refused ones stay open. */
  lemma {:induction false} PurgeConserves(rows: seq<ArtifactRow>, k: nat, vaults: Vaults, now: int)
    ensures var t := TallyOf(rows, k, vaults);
            && t.deleted + t.missing + t.failed == Open(rows)
            && Open(RowsAfter(rows, k, vaults, now)) == t.failed
  {
    if rows != [] {
      var n := |rows| - 1;
      var after := RowsAfter(rows[..n], k, vaults, now);
      PurgeConserves(rows[..n], k, vaults, now);
      OpenOfAppend(after, RowAfter(rows[n], vaults(k, n), now));
    }
  }

  lemma {:induction false} OpenOfAppend(rows: seq<ArtifactRow>, row: ArtifactRow)
    ensures Open(rows + [row]) == Open(rows) + (if row.purgedAt.None? then 1 else 0)
  {
    assert (rows + [row])[..|rows|] == rows;
  }

  lemma PurgeWipes(hash: HashFunction, d: Dossier, k: nat, vaults: Vaults, now: int)
    ensures Wiped(d, Purged(hash, d, k, vaults, now))
  {
  }

  /**
   The chain verdict survives a purge, because nothing that is cleared is hashed; the
   last event is the evidence and lists the digest of every artifact row that is kept.
   */
  lemma PurgeKeepsChain(hash: HashFunction, d: Dossier, k: nat, vaults: Vaults, now: int)
    ensures var after := Purged(hash, d, k, vaults, now);
            && (ValidChain(hash, d.events) ==> ValidChain(hash, after.events))
            && HashedFields(after.events)
                 == HashedFields(d.events) + [NextEvent(hash, Last(d.events), Evidence(d), d.scope, now, None, None).hashed]
            && Evidence(d).payload == PurgeFields(d.retentionDays, d.jurisdiction, Sha256s(after.artifacts))
  {
    var longer := WithEvidence(hash, d, now);
    var after := Purged(hash, d, k, vaults, now);
    assert after.events == ClearIdentifiers(longer);
    ClearingKeepsVerdict(hash, longer);
    FieldsOfAppend(d.events, longer[|d.events|]);
    if ValidChain(hash, d.events) {
      AppendKeepsChain(hash, d.events, Evidence(d), d.scope, now, None, None);
    }
    assert Sha256s(after.artifacts) == Sha256s(d.artifacts);
  }

  /** A refused blob is not tried again: whatever the vaults said, the session is never eligible later. */
  lemma {:induction false} RefusedBlobIsNotRetried(
    hash: HashFunction, d: Dossier, k: nat, vaults: Vaults, now: int, later: int)
    ensures var after := Purged(hash, d, k, vaults, now);
            !Eligible(after, later) && Open(after.artifacts) == TallyOf(d.artifacts, k, vaults).failed
  {
    PurgeConserves(d.artifacts, k, vaults, now);
  }

  // ---- A batch --------------------------------------------------------------

  /** Indices of the sessions past their retention, in table order. */
  function Expired(sessions: seq<Dossier>, now: int): (found: seq<nat>)
    ensures forall i :: 0 <= i < |found| ==> found[i] < |sessions| && Eligible(sessions[found[i]], now)
    ensures forall i, j :: 0 <= i < j < |found| ==> found[i] < found[j]
  {
    if sessions == [] then []
    else
      var n := |sessions| - 1;
      Expired(sessions[..n], now) + (if Eligible(sessions[n], now) then [n] else [])
  }

  lemma {:induction false} ExpiredIsComplete(sessions: seq<Dossier>, now: int, k: nat)
    requires k < |sessions| && Eligible(sessions[k], now)
    ensures k in Expired(sessions, now)
  {
    var n := |sessions| - 1;
    if k < n {
      ExpiredIsComplete(sessions[..n], now, k);
    }
  }

  function Selected(sessions: seq<Dossier>, now: int, batch: nat): seq<nat> {
    var expired := Expired(sessions, now);
    if batch < |expired| then expired[..batch] else expired
  }

  /** The first `batch` of the expired ones, all of them eligible and each only once. */
  lemma SelectedAreEligible(sessions: seq<Dossier>, now: int, batch: nat)
    ensures var chosen := Selected(sessions, now, batch);
            && Within(sessions, chosen)
            && (forall i :: 0 <= i < |chosen| ==> Eligible(sessions[chosen[i]], now))
            && (forall i, j :: 0 <= i < j < |chosen| ==> chosen[i] < chosen[j])
            && |chosen| == (if batch < |EligibleSet(sessions, now)| then batch else |EligibleSet(sessions, now)|)
  {
    var expired, chosen := Expired(sessions, now), Selected(sessions, now, batch);
    assert forall i :: 0 <= i < |chosen| ==> chosen[i] in expired;
    AscendingAreDistinct(expired);
    forall k: nat | k < |sessions| && Eligible(sessions[k], now) ensures k in expired {
      ExpiredIsComplete(sessions, now, k);
    }
    assert EligibleSet(sessions, now) == Members(expired);
  }

  ghost function Members(xs: seq<nat>): set<nat> {
    set k: nat | k in xs
  }

  lemma {:induction false} AscendingAreDistinct(xs: seq<nat>)
    requires forall i, j :: 0 <= i < j < |xs| ==> xs[i] < xs[j]
    ensures |Members(xs)| == |xs|
  {
    if xs != [] {
      var n := |xs| - 1;
      AscendingAreDistinct(xs[..n]);
      assert xs[n] !in xs[..n];
      assert Members(xs) == Members(xs[..n]) + {xs[n]};
    }
  }

  ghost function EligibleSet(sessions: seq<Dossier>, now: int): set<nat> {
    set k: nat | k < |sessions| && Eligible(sessions[k], now)
  }

  predicate Within(sessions: seq<Dossier>, chosen: seq<nat>) {
    forall i :: 0 <= i < |chosen| ==> chosen[i] < |sessions|
  }

  function SumOver(sessions: seq<Dossier>, chosen: seq<nat>, vaults: Vaults): Tally
    requires Within(sessions, chosen)
  {
    if chosen == [] then ZERO
    else
      var n := |chosen| - 1;
      Plus(SumOver(sessions, chosen[..n], vaults), TallyOf(sessions[chosen[n]].artifacts, chosen[n], vaults))
  }

  datatype PurgeReport = PurgeReport(purged: nat, tally: Tally, ids: seq<nat>)

  /** Sessions in `chosen` are purged, all others are as they were. */
  ghost predicate Purges(
    hash: HashFunction, before: seq<Dossier>, after: seq<Dossier>, chosen: seq<nat>, vaults: Vaults, now: int)
  {
    && |after| == |before|
    && forall k: nat :: k < |before| ==>
         after[k] == if k in chosen then Purged(hash, before[k], k, vaults, now) else before[k]
  }

  lemma {:induction false} OneMoreRow(rows: seq<ArtifactRow>, k: nat, i: nat, vaults: Vaults, now: int)
    requires i < |rows|
    ensures RowsAfter(rows[..i + 1], k, vaults, now)
              == RowsAfter(rows[..i], k, vaults, now) + [RowAfter(rows[i], vaults(k, i), now)]
  {
    assert rows[..i + 1][..i] == rows[..i];
  }

  lemma {:induction false} OneMoreCount(rows: seq<ArtifactRow>, k: nat, i: nat, vaults: Vaults)
    requires i < |rows|
    ensures TallyOf(rows[..i + 1], k, vaults) == Plus(TallyOf(rows[..i], k, vaults), CountOf(rows[i], vaults(k, i)))
  {
    assert rows[..i + 1][..i] == rows[..i];
  }

  /** The deletion loop of `_purge_session`: delete, count, mark. */
  method DeleteBlobs(artifacts: seq<ArtifactRow>, k: nat, vaults: Vaults, now: int)
    returns (rows: seq<ArtifactRow>, tally: Tally)
    ensures rows == RowsAfter(artifacts, k, vaults, now)
    ensures tally == TallyOf(artifacts, k, vaults)
  {
    rows, tally := [], ZERO;
    for i := 0 to |artifacts|
      invariant rows == RowsAfter(artifacts[..i], k, vaults, now)
      invariant tally == TallyOf(artifacts[..i], k, vaults)
    {
      OneMoreRow(artifacts, k, i, vaults, now);
      OneMoreCount(artifacts, k, i, vaults);
      var artifact, counted := DeleteBlob(artifacts[i], vaults(k, i), now);
      rows, tally := rows + [artifact], Plus(tally, counted);
    }
    assert artifacts[..|artifacts|] == artifacts;
  }

  /** One turn: a row already marked is left alone, a refused delete only counted. */
  method DeleteBlob(artifact: ArtifactRow, answer: Answer, now: int) returns (row: ArtifactRow, counted: Tally)
    ensures row == RowAfter(artifact, answer, now)
    ensures counted == CountOf(artifact, answer)
  {
    row, counted := artifact, ZERO;
    if artifact.purgedAt.Some? {
      return;
    }
    if answer.Refused? {
      counted := counted.(failed := 1);
      return;
    }
    if answer.Removed? {
      counted := counted.(deleted := 1, freed := artifact.size);
    } else {
      counted := counted.(missing := 1);
    }
    row := artifact.(purgedAt := Some(now));
  }

  /** The session table, with the hash that chains every audit log. */
  class Registry {
    const hash: HashFunction
    var sessions: seq<Dossier>

    constructor (hash: HashFunction, sessions: seq<Dossier>)
      ensures this.hash == hash && this.sessions == sessions
    {
      this.hash := hash;
      this.sessions := sessions;
    }

    /** The evidence event comes before any blob is touched; the session is done even if some were refused. */
    method PurgeSession(k: nat, vaults: Vaults, now: int) returns (tally: Tally)
      requires k < |sessions|
      modifies this
      ensures sessions == old(sessions)[k := Purged(hash, old(sessions[k]), k, vaults, now)]
      ensures tally == TallyOf(old(sessions[k].artifacts), k, vaults)
      ensures tally.deleted + tally.missing + tally.failed == Open(old(sessions[k].artifacts))
      ensures Open(sessions[k].artifacts) == tally.failed
    {
      ghost var d := sessions[k];
      PurgeConserves(d.artifacts, k, vaults, now);
      sessions := sessions[k := sessions[k].(events := WithEvidence(hash, sessions[k], now))];
      var rows;
      rows, tally := DeleteBlobs(sessions[k].artifacts, k, vaults, now);
      sessions := sessions[k := Wipe(sessions[k].(artifacts := rows), now)];
    }

    method PurgeEach(chosen: seq<nat>, vaults: Vaults, now: int) returns (tally: Tally)
      requires Within(sessions, chosen)
      requires forall i, j :: 0 <= i < j < |chosen| ==> chosen[i] < chosen[j]
      modifies this
      ensures Within(old(sessions), chosen)
      ensures tally == SumOver(old(sessions), chosen, vaults)
      ensures Purges(hash, old(sessions), sessions, chosen, vaults, now)
    {
      ghost var was := sessions;
      tally := ZERO;
      for i := 0 to |chosen|
        invariant Within(was, chosen) && Within(was, chosen[..i])
        invariant tally == SumOver(was, chosen[..i], vaults)
        invariant Purges(hash, was, sessions, chosen[..i], vaults, now)
      {
        ghost var prior := sessions;
        NotYet(chosen, i);
        var result := PurgeSession(chosen[i], vaults, now);
        MorePurged(hash, was, prior, sessions, chosen[..i], chosen[i], vaults, now);
        tally := Plus(tally, result);
      }
      assert chosen[..|chosen|] == chosen;
    }

    method PurgeExpiredSessions(vaults: Vaults, now: int, batch: nat) returns (report: PurgeReport)
      modifies this
      ensures var chosen := Selected(old(sessions), now, batch);
              && report.ids == chosen && report.purged == |chosen|
              && Within(old(sessions), chosen)
              && report.tally == SumOver(old(sessions), chosen, vaults)
              && Purges(hash, old(sessions), sessions, chosen, vaults, now)
      ensures Run(EligibleSet(old(sessions), now), EligibleSet(sessions, now), batch)
    {
      ghost var was := sessions;
      var chosen := Selected(sessions, now, batch);
      SelectedAreEligible(sessions, now, batch);
      var tally := PurgeEach(chosen, vaults, now);
      BatchIsRun(hash, was, sessions, vaults, now, batch);
      report := PurgeReport(|chosen|, tally, chosen);
    }
  }

  /** The blobs of all vaults. */
  class BlobStore {
    var present: set<Blob>

    constructor (present: set<Blob>)
      ensures this.present == present
    {
      this.present := present;
    }

    method Take(blobs: set<Blob>)
      modifies this
      ensures present == old(present) - blobs
    {
      present := present - blobs;
    }
  }

  /** What a run over the chosen sessions takes from the vaults. */
  function TakenFrom(sessions: seq<Dossier>, chosen: seq<nat>, refused: set<Blob>): set<Blob> {
    set k, b | k in chosen && k < |sessions| && b in Taken(sessions[k].artifacts, k, refused) :: b
  }

  /**
   One run up to the end of its transaction: the blobs are gone either way, but rows,
   wiped data and evidence events are kept only if it commits.
   */
  method PurgeInTransaction(
    registry: Registry, store: BlobStore, refused: set<Blob>, now: int, batch: nat, commits: bool)
    returns (report: PurgeReport)
    modifies registry, store
    ensures var before := old(registry.sessions);
            var chosen := Selected(before, now, batch);
            var vaults := VaultsOf(old(store.present), refused);
            && Within(before, chosen) && report.tally == SumOver(before, chosen, vaults)
            && store.present == old(store.present) - TakenFrom(before, chosen, refused)
            && if commits then Purges(registry.hash, before, registry.sessions, chosen, vaults, now)
               else registry.sessions == before
  {
    var before := registry.sessions;
    report := registry.PurgeExpiredSessions(VaultsOf(store.present, refused), now, batch);
    store.Take(TakenFrom(before, Selected(before, now, batch), refused));
    if !commits {
      registry.sessions := before;
    }
  }

  /** Sessions still to purge at one moment; a run takes `batch` of them, or all if fewer are left. */
  ghost predicate Run(before: set<nat>, after: set<nat>, batch: nat) {
    && after <= before
    && |before - after| == if batch < |before| then batch else |before|
  }

  lemma NotYet(chosen: seq<nat>, i: nat)
    requires i < |chosen| && forall a, b :: 0 <= a < b < |chosen| ==> chosen[a] < chosen[b]
    ensures chosen[i] !in chosen[..i] && chosen[..i + 1] == chosen[..i] + [chosen[i]]
  {
  }

  /** One turn of the batch loop, on values. */
  lemma {:induction false} MorePurged(
    hash: HashFunction, was: seq<Dossier>, prior: seq<Dossier>, after: seq<Dossier>, ids: seq<nat>, k: nat,
    vaults: Vaults, now: int)
    requires Purges(hash, was, prior, ids, vaults, now)
    requires Within(was, ids) && k < |was| && k !in ids
    requires after == prior[k := Purged(hash, prior[k], k, vaults, now)]
    ensures prior[k] == was[k]
    ensures Purges(hash, was, after, ids + [k], vaults, now)
    ensures SumOver(was, ids + [k], vaults) == Plus(SumOver(was, ids, vaults), TallyOf(was[k].artifacts, k, vaults))
  {
    assert (ids + [k])[..|ids|] == ids;
  }

  lemma BatchIsRun(
    hash: HashFunction, before: seq<Dossier>, after: seq<Dossier>, vaults: Vaults, now: int, batch: nat)
    requires Purges(hash, before, after, Selected(before, now, batch), vaults, now)
    ensures Run(EligibleSet(before, now), EligibleSet(after, now), batch)
  {
    var chosen := Selected(before, now, batch);
    var all, left := EligibleSet(before, now), EligibleSet(after, now);
    SelectedAreEligible(before, now, batch);
    AscendingAreDistinct(chosen);
    forall k: nat | k < |before| ensures k in left <==> k in all && k !in chosen {
    }
    assert all - left == Members(chosen);
  }

  // ---- Runs that are rolled back --------------------------------------------

  /** A blob by session and artifact; deleting it is not undone when the database rolls back. */
  type Blob = (nat, nat)

  function VaultsOf(present: set<Blob>, refused: set<Blob>): Vaults {
    (k, i) => if (k, i) in refused then Refused else if (k, i) in present then Removed else AlreadyGone
  }

  /** What one run takes from the vaults for one session: the blobs of open rows, unless refused. */
  function Taken(rows: seq<ArtifactRow>, k: nat, refused: set<Blob>): set<Blob> {
    set i: nat | i < |rows| && rows[i].purgedAt.None? && (k, i) !in refused :: (k, i)
  }

  /** Open rows whose blob is still there. */
  function Held(rows: seq<ArtifactRow>, k: nat, present: set<Blob>): nat {
    if rows == [] then 0
    else
      var n := |rows| - 1;
      Held(rows[..n], k, present) + (if rows[n].purgedAt.None? && (k, n) in present then 1 else 0)
  }

  lemma {:induction false} RunConserves(
    rows: seq<ArtifactRow>, k: nat, present: set<Blob>, refused: set<Blob>, after: set<Blob>)
    requires forall i :: 0 <= i < |rows| && rows[i].purgedAt.None? ==>
                           ((k, i) in after <==> (k, i) in present && (k, i) in refused)
    ensures TallyOf(rows, k, VaultsOf(present, refused)).deleted + Held(rows, k, after) == Held(rows, k, present)
  {
    if rows != [] {
      var n := |rows| - 1;
      assert forall i :: 0 <= i < n ==> rows[..n][i] == rows[i];
      RunConserves(rows[..n], k, present, refused, after);
    }
  }

  /** Blobs left after attempts that each meet some refusals and then roll back. */
  function Left(rows: seq<ArtifactRow>, k: nat, present: set<Blob>, attempts: seq<set<Blob>>): set<Blob> {
    if attempts == [] then present
    else
      var n := |attempts| - 1;
      Left(rows, k, present, attempts[..n]) - Taken(rows, k, attempts[n])
  }

  function DeletedBy(rows: seq<ArtifactRow>, k: nat, present: set<Blob>, attempts: seq<set<Blob>>): nat {
    if attempts == [] then 0
    else
      var n := |attempts| - 1;
      var left := Left(rows, k, present, attempts[..n]);
      DeletedBy(rows, k, present, attempts[..n]) + TallyOf(rows, k, VaultsOf(left, attempts[n])).deleted
  }

  /** However often the purge of a session is rolled back, every blob is deleted by one attempt or still there. */
  lemma {:induction false} AttemptsConserve(
    rows: seq<ArtifactRow>, k: nat, present: set<Blob>, attempts: seq<set<Blob>>)
    ensures DeletedBy(rows, k, present, attempts) + Held(rows, k, Left(rows, k, present, attempts))
         == Held(rows, k, present)
  {
    if attempts != [] {
      var n := |attempts| - 1;
      var left := Left(rows, k, present, attempts[..n]);
      AttemptsConserve(rows, k, present, attempts[..n]);
      RunConserves(rows, k, left, attempts[n], left - Taken(rows, k, attempts[n]));
    }
  }

  lemma CountWithoutRefusal(row: ArtifactRow, k: nat, i: nat, present: set<Blob>)
    ensures var t := CountOf(row, VaultsOf(present, {})(k, i));
            && t.failed == 0
            && t.deleted == (if row.purgedAt.None? && (k, i) in present then 1 else 0)
            && t.missing == (if row.purgedAt.None? && (k, i) !in present then 1 else 0)
  {
  }

  lemma {:induction false} NothingRefused(rows: seq<ArtifactRow>, k: nat, present: set<Blob>)
    ensures var t := TallyOf(rows, k, VaultsOf(present, {}));
            t.failed == 0 && t.deleted == Held(rows, k, present) && t.missing == Open(rows) - Held(rows, k, present)
  {
    if rows != [] {
      var n := |rows| - 1;
      NothingRefused(rows[..n], k, present);
      CountWithoutRefusal(rows[n], k, n, present);
    }
  }

  /**
   The run that commits, with no refusal of its own, reports as missing the blobs missing
   from the start and every one that a rolled-back attempt had deleted.
   */
  lemma {:induction false} RolledBackCountAsMissing(
    rows: seq<ArtifactRow>, k: nat, present: set<Blob>, attempts: seq<set<Blob>>)
    ensures var t := TallyOf(rows, k, VaultsOf(Left(rows, k, present, attempts), {}));
            && t.deleted == Held(rows, k, present) - DeletedBy(rows, k, present, attempts)
            && t.missing == Open(rows) - Held(rows, k, present) + DeletedBy(rows, k, present, attempts)
            && t.failed == 0
  {
    AttemptsConserve(rows, k, present, attempts);
    NothingRefused(rows, k, Left(rows, k, present, attempts));
  }

  // ---- The backlog ----------------------------------------------------------

  ghost predicate Runs(backlog: seq<set<nat>>, batch: nat) {
    backlog != [] && forall i :: 0 <= i < |backlog| - 1 ==> Run(backlog[i], backlog[i + 1], batch)
  }

  lemma RunShrinks(before: set<nat>, after: set<nat>, batch: nat)
    requires Run(before, after, batch)
    ensures |after| == if batch < |before| then |before| - batch else 0
  {
    assert before == after + (before - after);
  }

  /** Whatever order the database returns: after `k` runs `max(0, n - k * batch)` sessions are left. */
  lemma {:induction false} BacklogAfter(backlog: seq<set<nat>>, batch: nat)
    requires Runs(backlog, batch)
    ensures var k := |backlog| - 1;
            var n := |backlog[0]|;
            |backlog[k]| == if k * batch < n then n - k * batch else 0
    decreases |backlog|
  {
    var k := |backlog| - 1;
    if k > 0 {
      assert Runs(backlog[..k], batch);
      BacklogAfter(backlog[..k], batch);
      assert Run(backlog[k - 1], backlog[k - 1 + 1], batch);
      RunShrinks(backlog[k - 1], backlog[k], batch);
      assert k * batch == (k - 1) * batch + batch;
    }
  }

  /** The backlog is empty after exactly `ceil(n / batch)` runs, and not before. */
  lemma BacklogEmptiesExactly(backlog: seq<set<nat>>, batch: nat)
    requires Runs(backlog, batch) && batch > 0
    ensures var k := |backlog| - 1;
            backlog[k] == {} <==> k >= (|backlog[0]| + batch - 1) / batch
  {
    BacklogAfter(backlog, batch);
    Ceiling(|backlog[0]|, |backlog| - 1, batch);
  }

  lemma Ceiling(n: nat, k: nat, b: nat)
    requires b > 0
    ensures k * b >= n <==> k >= (n + b - 1) / b
  {
    var q := (n + b - 1) / b;
    var r := (n + b - 1) % b;
    assert n + b - 1 == q * b + r;
    if k >= q {
      assert (k - q) * b >= 0;
      assert k * b == q * b + (k - q) * b;
    } else {
      assert (q - 1 - k) * b >= 0;
      assert q * b == k * b + b + (q - 1 - k) * b;
    }
  }

  /** A session leaves the backlog once: it is taken by at most one run. */
  lemma {:induction false} PurgedAtMostOnce(backlog: seq<set<nat>>, batch: nat, i: nat, j: nat, k: nat)
    requires Runs(backlog, batch) && i < j < |backlog| - 1
    requires k in backlog[i] && k !in backlog[i + 1]
    ensures k !in backlog[j]
    decreases j
  {
    if j > i + 1 {
      PurgedAtMostOnce(backlog, batch, i, j - 1, k);
      assert Run(backlog[j - 1], backlog[j - 1 + 1], batch);
    }
  }
}
