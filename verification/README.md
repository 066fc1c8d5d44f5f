# Verification of the identity-verification backend

This project models the parts of the backend whose correctness spans several
functions, workers or files, and proves what they promise. Dafny checks all of it:

    dafny verify dfyconfig.toml

## What is modelled

**The session protocol** (`Enums`, `Policy`, `Decision`, `Audit`, `Webhooks`, `Kyc`,
`Protocol`, `Guarantees`, `Scenarios`, `Tasks`, `Confidence`, `Scan`, `Sweep`). `Kyc` has two views of one
state machine: functions from a session row to the row written, the audit entries
recorded and the webhook queued, and the class `Session`, which performs the same steps
on its fields and is proved equal to them. `Protocol` is a transition system of any
number of interleaved transactions over one session: take the row lock and re-read,
operate, read the highest audit sequence without a lock, insert under the unique
constraint, scan without a lock, queue a webhook, fetch and post a delivery, commit, roll back.
Its invariant ties every committed state to a serial run of the committed operations in lock
order; `Guarantees` draws the conclusions and `Scenarios` shows, by reachable runs, where they
end. `Tasks`, `Confidence`, `Scan` and `Sweep` are the workers on top.

**The DER writer and the timestamp reader** (`Bytes`, `Asn1`, `Tsa`). Writer and reader
live in different files of the source and are proved to undo each other, up to a whole
RFC 3161 response in which every field the reader skips is arbitrary.

**The rate limiter and the OTP engine** (`RateLimit`, `Otp`). The stored pair of expiry
and count is proved to refine a ghost log of all hits. A verification loads its challenge and
writes it back later; what any overlap of requests leaves is compared with the serial history,
and the bound on code comparisons follows from the limiter, the challenge life cycle and how
much the requests overlap.

**MRZ, vault, retention** (`Mrz`, `Vault`, `Retention`). The exact set of errors that the
check digits miss, the sealed blob format, and the purge with its counts, its evidence
event and its backlog.

The event hash and the cipher are parameters. Results about the hash hold of any hash and name
the collision they would otherwise exhibit; `Correct` and `BoundTo` say what a result needs of
the cipher. Clocks, random
codes, nonces, provider measurements, vault answers and gateway answers are inputs.
Confidences and scores are exact reals, times are integers.

## Where the code and its documentation disagree

The model follows the code.

- `app/api/v1/admin.py:33-36` says a blob whose deletion failed stays eligible for the next
  purge. It does not: the session is marked purged all the same (`Retention.RefusedBlobIsNotRetried`).
- The purge deletes blobs before its one transaction commits (`app/services/retention.py:56-153`): a
  rollback keeps neither the evidence event nor the marks, and the next run counts those blobs as
  missing (`Retention.RolledBackCountAsMissing`).
- A delivery that fails re-raises inside `db_session`, so FAILED, the attempt count and the
  WEBHOOK_FAILED event roll back (`app/workers/tasks.py:302-314`, `app/db/session.py:22-32`):
  no committed row is ever FAILED (`Guarantees.CommittedWebhooksAreExact`).
- `app/services/kyc.py:330` says notifications always mirror the committed state. One event is
  announced once, so a status that is left and entered again announces nothing new: the failing
  series is `Kyc.OverrideBackIsSilent`, the exact condition `Kyc.MirrorsExactly`.
- `otp_max_attempts` does not bound the comparisons of one challenge: `app/engines/otp.py:134-151` reads
  the count without a lock and writes it back later, so overlapping requests lose counts
  (`Otp.BurstIsCompared`). The exact condition is `Otp.CountsExactly`; how far the bound degrades with
  the overlap, `Otp.ComparedAtMost` and `Otp.GuessBound`.
- `app/workers/tasks.py:186-188` says a legitimate in-flight run is never duplicated and the tasks
  apply idempotently. The throttle is tested on an unlocked scan, so overlapping sweeps both
  re-queue (`Scenarios.OverlappingSweepsBothRequeue`); it holds as far as the scan sees
  (`Scan.SecondRequeueExactly`, `Guarantees.SeenRequeuesAreApart`). The tasks test for a pending check
  before they lock, so overlapping executions apply twice (`Tasks.OverlappingTasksWriteTwice`); the exact
  condition is `Tasks.AppliedOnceExactly`. For selfies, applying once also needs
  a flow that requires LIVENESS with FACE_MATCH (`Tasks.SelfieWithoutLivenessReapplies`); the
  shipped flows do.
- `encode_integer` strips the sign octet that X.690 section 8.3 asks for, and `encode_oid` writes
  the first two arcs as one octet without testing that they are standard; the exact conditions are
  `Asn1.IntegerReadsBackSigned` and `Asn1.OidReadsBack`.

## Model

| member | source | states |
|---|---|---|
| Policy.DecidableStepsInOrder | app/engines/decision.py:59-60 | each step that no other engine handles is in the list once for each time the flow names it, in the flow's order, and nothing else is |
| Policy.ShippedFlowsAreDecidable | app/engines/policy.py:24-76 | every shipped flow has something to decide, and which steps those are |
| Decision.ComputeRisk | app/engines/decision.py:83-108 | the accumulating loop yields the weighted score and the contributions of the specification |
| Decision.ContributionsExplainScore | app/engines/decision.py:83-108 | reported contributions come from settled steps of the flow and add up to both sums behind the score |
| Decision.DecideMeaning | app/engines/decision.py:119-198 | each verdict as an if-and-only-if over the stored checks: hard failure, pending step, doubt, score against both thresholds |
| Decision.VerifiedExactly | app/engines/decision.py:119-198 | with accept at least review, VERIFIED holds exactly when every decidable step is PASSED or SKIPPED and the rounded score reaches accept |
| Decision.DecideReadsOnlyDecidableSteps | app/engines/decision.py:119-198 | two sessions that agree on the decidable steps get the same decision in every field |
| Decision.ScoreMonotone | app/engines/decision.py:63-108 | raising any confidence never lowers the score |
| Decision.ScoreInRange | app/engines/decision.py:63-108 | confidences in 0..1 give a score in 0..100 |
| Decision.HundredthsAreExact | app/engines/decision.py:108 | the rounded score is a whole number of hundredths, so recording that number loses nothing |
| Audit.AuditTrail.RecordEvent | app/engines/audit.py:43-89 | appends exactly the successor of the last event, and keeps a valid chain valid |
| Audit.AuditTrail.VerifyChain | app/engines/audit.py:102-126 | reports valid exactly for a linked chain, with its head; otherwise the first bad link |
| Audit.AppendKeepsChain | app/engines/audit.py:43-89 | a recorded event extends a valid chain to a valid chain |
| Audit.PrefixIsValid | app/engines/audit.py:102-126 | a truncated valid chain still verifies, so the verifier alone cannot see truncation |
| Audit.HeadBindsHistory | app/engines/audit.py:16-40 | two valid chains with one head hash agree on every hashed field of every event, or exhibit a hash collision |
| Audit.CheckpointDetectsRewriting | scripts/checkpoint_audit.py:37-51 | against a stored count and head, every extension of the sealed history passes, and whatever passes extends it or exhibits a collision |
| Audit.ClearingKeepsVerdict | app/services/retention.py:116-119 | clearing ip and user agent neither breaks a valid chain nor repairs a broken one |
| Audit.ListedChain | app/engines/audit.py:92-99 | rows stored under consecutive sequences list as that chain |
| Webhooks.QueueAnnounces | app/services/webhooks.py:36-68 | as long as no row is failing, queueing announces each event at most once |
| Webhooks.QueuedIffNamed | app/services/webhooks.py:48-56 | the duplicate test finds a row exactly when the event was announced |
| Kyc.Session.constructor | app/services/kyc.py:110-149 | a new session is CREATED, waiting on every decidable step, without deliveries, its creation event chained |
| Kyc.CreateSession | app/services/kyc.py:91-150 | an unknown flow, or one the tenant has not enabled, is refused before any write; otherwise the session is opened as above |
| Kyc.Session.SetCheck | app/services/kyc.py:201-219 | merging one step's result in place is the specified operation, in row, entries and announcements |
| Kyc.Session.QueueEvent | app/services/webhooks.py:36-68 | queues one row for the current status unless one is there or the tenant has no URL |
| Kyc.Session.Evaluate | app/services/kyc.py:255-314 | decide, guard the transition, record, close and notify: equal to the specified operation, keeping the chain |
| Kyc.Session.OverrideDecision | app/services/kyc.py:317-353 | refuses a non-terminal target untouched, otherwise equal to the specified operation, keeping the chain |
| Kyc.Session.Expire | app/services/kyc.py:356-373 | closes an overdue open session only; a session past its expiry is terminal afterwards |
| Kyc.Session.MarkRequeued | app/workers/tasks.py:238-244 | only `reconciled_at` and the update time change |
| Kyc.AllPendingStaysOpen | app/services/kyc.py:255-314 | deciding a session whose checks are all pending leaves it open |
| Kyc.ApplyKeepsInv | app/services/kyc.py:201-373 | every operation keeps: CREATED means all pending, PROCESSING is never entered, decided means completed, completed means terminal |
| Kyc.RunOpKeepsInv | app/services/kyc.py:201-373 | every operation also keeps: at most one KYC_DECISION, DECISION_BLOCKED only at the terminal status it names, and the entries alone rebuild the status |
| Kyc.EveryRunKeepsInv | app/services/kyc.py:201-373 | those invariants hold after every series of operations |
| Kyc.TerminalSticks | app/services/kyc.py:222-252 | without an override no operation moves a terminal status |
| Kyc.TerminalStaysTerminal | app/services/kyc.py:317-353 | even with overrides a terminal session stays terminal |
| Kyc.CheckIsLastWrite | app/services/kyc.py:201-219 | a check holds what the last write of that very step stored |
| Kyc.DataIsLastWrite | app/services/kyc.py:209-216 | a step's internal payload is the one last merged for that step, unless purged since |
| Kyc.NotifiesOnEntry | app/services/kyc.py:310-313 | an operation queues a webhook exactly when it changes the status to a terminal one |
| Kyc.OneRowPerTerminalStatus | app/services/webhooks.py:36-68 | with a URL there is exactly one row for each terminal status the session ever had, and none without |
| Kyc.MirrorsExactly | app/services/kyc.py:350-353 | entering a terminal status leaves its event the last one announced exactly when it was not announced before, or was the last one already |
| Kyc.OverrideBackIsSilent | app/services/kyc.py:317-353 | overrides to VERIFIED, REJECTED and VERIFIED again announce two events and end with the wrong one last |
| Protocol.LockKeepsInv | app/services/kyc.py:179-198 | taking the lock re-reads the committed row, so the holder continues from it |
| Protocol.OperateKeepsInv | app/services/kyc.py:201-373 | an operation of the lock holder keeps the invariant of the whole system |
| Protocol.InsertContinues | app/models/audit.py:15 | an insert that is neither refused nor made to wait continues the one visible chain, however stale the read was |
| Protocol.InserterIsAlone | app/models/audit.py:15 | while one transaction holds uncommitted audit rows, no other insert gets through |
| Protocol.InsertKeepsInv | app/engines/audit.py:43-89 | read-then-append without a lock keeps the invariant, whether it extends the chain or aborts |
| Protocol.CommitKeepsTracking | app/db/session.py:22-32 | a commit without the row lock is invisible to the run that the lock holder follows |
| Protocol.CommitKeepsInv | app/db/session.py:22-32 | publishing a transaction's writes keeps the invariant for every transaction still running |
| Protocol.AbortKeepsInv | app/db/session.py:22-32 | a rollback undoes every write of its transaction and keeps the invariant |
| Protocol.ScanKeepsInv | app/workers/tasks.py:191-217 | an unlocked scan may be overtaken by commits; the row it read stays one that a committed prefix led to |
| Protocol.PostKeepsInv | app/workers/tasks.py:277-324 | a delivery attempt, accepted or refused, keeps the invariant; a refused one has written FAILED and owes its event |
| Protocol.RunKeepsInv | app/services/kyc.py:179-373 | the invariant holds in every state that any interleaving reaches |
| Guarantees.CommittedStateIsSerial | app/services/kyc.py:179-219 | no lost update: row, decision entries and announcements equal one serial run of the committed transactions' operations, the transactions in ascending order of the tickets they drew with the lock |
| Guarantees.ConcurrentAppendsFormOneChain | app/engines/audit.py:43-126 | committed sequences are 1..n and list as one chain that verifies |
| Guarantees.CommittedSessionIsSound | app/services/kyc.py:201-373 | the session invariants hold in every committed state, and the audit table rebuilds the status |
| Guarantees.CommittedWebhooksAreExact | app/services/webhooks.py:36-68 | one committed row per terminal status ever entered, none FAILED, DELIVERED after one counted attempt |
| Guarantees.RefusedAttemptIsUndone | app/workers/tasks.py:302-314 | over every run: from a refused POST on, until its transaction id is begun anew, no move of that transaction changes anything committed |
| Guarantees.SeenRequeuesAreApart | app/workers/tasks.py:191-244 | over every interleaving a requeue is at least `stuck_session_minutes` after the last one its scan saw committed |
| Guarantees.SweepsWithoutOverlapAreApart | app/workers/tasks.py:191-244 | if each sweep scans after the earlier ones committed, any two requeues of a session are that far apart |
| Guarantees.CheckChangesOnlyByItsWriter | app/services/kyc.py:201-219 | between any two points of a run a committed check changes only by a committed write of that step |
| Guarantees.DataChangesOnlyByItsWriter | app/services/kyc.py:209-216 | the same for the internal payload of a step, which only its writer and the purge touch |
| Guarantees.TerminalChangesOnlyByOverride | app/services/kyc.py:222-252 | between any two points a terminal status stays terminal and changes only if an override commits |
| Guarantees.HeadFixesVerdict | app/engines/audit.py:16-40 | two histories with the same audit head ended with the same verdict, or exhibit a collision |
| Guarantees.DeliveredExactly | app/workers/tasks.py:286-324 | between any two points of a run a row not DELIVERED becomes so exactly if the commit of an accepted attempt on it lies between them; DELIVERED stays |
| Guarantees.LatePostExactly | app/workers/tasks.py:286-324 | every POST goes back to a fetch of its task that found the row not DELIVERED, and it follows a committed DELIVERED exactly if an accepted attempt on that row was committed between that fetch and the POST |
| Guarantees.NoPostAfterDelivered | app/workers/tasks.py:286-289 | a discipline that suffices, though it is not needed: if no two tasks work on one delivery at a time, no POST follows a committed DELIVERED |
| Guarantees.DecidedCheckIsFinal | app/workers/tasks.py:108-161 | over every run whose transactions are task executions: a check is written at most once exactly if each execution that handles it had seen every earlier one that wrote it, and then a committed check that is decided never changes |
| Guarantees.NoCommittedLowConfidence | app/engines/decision.py:170-186 | over every interleaving of operations that the engines make, with the default thresholds, no committed decision, taken or blocked, names LOW_CONFIDENCE |
| Scenarios.OverlappingTasksPostTwice | app/workers/tasks.py:286-324 | a reachable run in which two overlapping tasks post, the second after DELIVERED was committed |
| Scenarios.OverlappingSweepsBothRequeue | app/workers/tasks.py:191-244 | a reachable run in which two sweeps that both scanned first re-queue the session one tick apart, whatever the throttle |
| Scenarios.RecordThenLockDeadlocks | app/engines/identity.py:56-112 | a reachable run in which a worker that recorded an event and now wants the row lock, and the lock holder that wants to record, wait for each other |
| Scenarios.DeadlockLasts | app/services/kyc.py:179-198 | over every run: while the one asks for the row and the other tries to insert, neither makes another move and the circle stays, whatever all other transactions do |
| Scenarios.LockFirstNeverDeadlocks | app/services/kyc.py:179-198 | if every transaction that still wants the row lock has recorded nothing yet, some transaction can always go on |
| Tasks.VerifyDocument | app/engines/identity.py:45-114 | document columns, the two events in order, the identity fields and the check, all by expiry, authenticity and threshold |
| Tasks.IdentityIsLastContribution | app/engines/identity.py:96-100 | over any series of documents an identity field is the one the last document that was not failed and could read it gave; no field is lost |
| Tasks.ProcessDocument | app/workers/tasks.py:108-124 | a no-op once decided; otherwise the engine's notes, its check and one evaluation: row, entries and announcements |
| Tasks.CheckLiveness | app/engines/biometrics.py:37-61 | the measurement is always stored and noted; the check is written only in flows that require it |
| Tasks.CheckFaceMatch | app/engines/biometrics.py:63-104 | a spoofed capture or a missing document fails the check without a stored or noted match |
| Tasks.ProcessSelfie | app/workers/tasks.py:150-161 | a no-op once liveness is decided; otherwise both notes, both checks and one evaluation: row, entries and announcements |
| Tasks.ProcessingFailed | app/workers/tasks.py:52-85 | the failure hook notes the failure, turns the pending checks into REVIEW and evaluates once; a terminal session is untouched |
| Tasks.DocumentShape | app/engines/identity.py:76-112 | the document engine writes its own check once, by expiry, authenticity and threshold |
| Tasks.SelfieShape | app/engines/biometrics.py:32-104 | which checks a selfie run writes, and with which status |
| Tasks.PendingUntilWritten | app/workers/tasks.py:48-49 | however executions overlap, a processed check is pending exactly while no committed operation has written it, and LIVENESS and FACE_MATCH leave PENDING together |
| Tasks.WritesExactly | app/workers/tasks.py:108-161 | an execution that handles a step writes it exactly if none of the executions it had seen, when it read the session before locking, has written it |
| Tasks.AppliedOnceExactly | app/workers/tasks.py:108-161 | over any duplicated, retried, re-queued and overlapping executions, in a flow that requires LIVENESS with FACE_MATCH: a check is written at most once exactly if each execution that handles it had seen every earlier one that wrote it |
| Tasks.TasksApplyOnce | app/workers/tasks.py:108-161 | hence executions that do not overlap write each check at most once |
| Tasks.OverlappingTasksWriteTwice | app/workers/tasks.py:108-124 | two document tasks that both read before either commits write the check twice, and the later one decides it |
| Tasks.SelfieWithoutLivenessReapplies | app/workers/tasks.py:150-161 | the flow condition is needed: otherwise every selfie applies again, even without overlap |
| Tasks.ShippedFlowsPairSelfieSteps | app/engines/policy.py:24-76 | the shipped flows meet that condition |
| Tasks.HookRejectsOnlyStoredFailure | app/workers/tasks.py:52-85 | after the hook turned a required pending step of an open session into REVIEW, the session is REJECTED exactly if a hard failure was already stored |
| Confidence.TasksPerformEngineOps | app/engines/identity.py:76-112 | every write of the two engines and of the hook carries a payload that supports PASSED |
| Confidence.RunKeepsConfident | app/engines/biometrics.py:37-102 | in every run a PASSED check is backed by its engine's threshold, and nothing is SKIPPED |
| Confidence.PlatformPerformsEngineOps | app/engines/otp.py:134-177 | every check written by worker tasks and by the OTP engine is one an engine supports |
| Confidence.LowConfidenceIsUnreachable | app/engines/decision.py:170-186 | with the default thresholds no decision recorded in a run of worker tasks and OTP answers, overlapping or not, names LOW_CONFIDENCE |
| Confidence.ShippedFlowsScore | app/engines/decision.py:83-108 | a shipped flow with every step passed scores at least 73.33 |
| Sweep.SweepOne | app/workers/tasks.py:209-244 | one scanned session is closed, re-queued or left as planned; past its expiry it is terminal afterwards |
| Sweep.ReconcileStuckSessions | app/workers/tasks.py:179-257 | report, dispatch list and every session's new state follow from the rows before the sweep |
| Sweep.PlanRequeues | app/workers/tasks.py:209-236 | a scan re-queues for some uploads exactly when the row it read allows it |
| Scan.ReconciledAtIsLastMark | app/services/kyc.py:209-216 | while a session stays open `reconciled_at` is the clock of the last requeue: no merge loses it |
| Scan.RequeuesExactly | app/workers/tasks.py:209-217 | a scan of a waiting session re-queues exactly when the last requeue it saw is not younger than the cutoff |
| Scan.SecondRequeueExactly | app/workers/tasks.py:191-217 | after one requeue a scan of the waiting session re-queues exactly if it had not seen that requeue or the throttle has passed since |
| Bytes.BytesRoundTrip | app/engines/asn1.py:14-18 | reading big-endian bytes undoes writing them |
| Bytes.OctetLengthExact | app/engines/asn1.py:17 | `(bit_length + 7) // 8` bytes are enough, and one fewer is not |
| Bytes.OnlyZerosInFront | app/engines/asn1.py:14-29 | any representation without a leading zero is the shortest one |
| Asn1.IntegerReadsBackUnsigned | app/engines/asn1.py:25-29 | unsigned reading recovers every value, in the fewest octets, without a leading zero |
| Asn1.IntegerReadsBackSigned | app/engines/asn1.py:25-29 | two's complement reading (X.690 section 8.3) recovers the value exactly if it is 0 or its bit length is no multiple of 8 |
| Asn1.SignOctetIsMissing | app/engines/asn1.py:25-29 | 128 reads back as -128, and every smaller value reads back right |
| Asn1.EncodeOidContent | app/engines/asn1.py:44-53 | the shift-and-reverse loop writes base-128 digits of every arc; too few or too large first arcs are the error |
| Asn1.ReadAllArcs | app/engines/asn1.py:44-53 | a base-128 reader (X.690 section 8.19) recovers every arc in order |
| Asn1.NoLeadingPadding | app/engines/asn1.py:46-52 | no arc starts with an empty digit |
| Asn1.OidReadsBack | app/engines/asn1.py:44-53 | a standard reader (X.690 section 8.19.4) returns the identifier exactly when `a <= 2`, `b < 40` unless `a == 2`, and `40 * a + b < 128` |
| Asn1.NonStandardOidChanges | app/engines/asn1.py:44-45 | 0.50 is accepted and reads back as 1.10 |
| Tsa.Children | app/engines/tsa.py:286-290 | on arbitrary bytes the loop ends and yields the specified list, or fails where an element cannot be read |
| Tsa.ReadTlv | app/engines/tsa.py:274-283 | every element read advances the offset by at least two octets that exist |
| Tsa.ReadUndoesTlv | app/engines/tsa.py:274-283 | the reader returns tag, content and end offset of a written element, up to the 127-octet length form, whatever follows |
| Tsa.ReadAt | app/engines/tsa.py:274-283 | the same at any offset of any buffer |
| Tsa.LengthIsShortest | app/engines/asn1.py:14-18 | the length octets are the shortest ones (X.690 section 10.1) |
| Tsa.ChildrenOf | app/engines/tsa.py:286-290 | the children of a concatenation of written elements are exactly that list |
| Tsa.VerifyRfc3161 | app/engines/tsa.py:214-268 | the step-by-step walk, with every early return and exception, fills the specified result; the trusted CA is reported only after everything else was read |
| Tsa.ResponseReadsBack | app/engines/tsa.py:214-268 | for every response composed with the writer: granted by status, structurally fine, the genTime returned, the imprint matching exactly when the embedded digest is the expected one |
| Tsa.RequestReadsBack | app/engines/asn1.py:60-70 | version, algorithm identifier, digest, nonce and flag of a written request read back |
| RateLimit.Backend.Count | app/engines/ratelimit.py:55-63 | expiry and count refine the log of hits: the answer is the length of the run this hit ends |
| RateLimit.Backend.AcquireOnce | app/engines/ratelimit.py:79-94 | acquired exactly when no earlier acquisition is still running; a refusal changes nothing |
| RateLimit.RateLimiter.RecordHit | app/engines/ratelimit.py:66-76 | which of the two logs a hit enters under every failure of Redis, including a lost reply |
| RateLimit.RateLimiter.Acquire | app/engines/ratelimit.py:79-94 | the same for the cooldown key |
| RateLimit.RunIsMaximal | app/engines/ratelimit.py:55-63 | that run is the only maximal run of hits with gaps under the window that ends the log |
| RateLimit.RunCoversWindow | app/engines/ratelimit.py:55-76 | the answer is at least the number of hits in the window that ends now |
| RateLimit.WindowBound | app/engines/ratelimit.py:66-76 | one backend accepts at most `max` calls in any window-long interval |
| RateLimit.FailoverBound | app/engines/ratelimit.py:66-76 | Redis and P process memories, switched in any way, accept at most `(P + 1) * max` |
| RateLimit.Fleet.RecordCall | app/engines/ratelimit.py:66-76 | every call of every process is accounted for on the log of the backend that counted it, and answers that log's run length |
| RateLimit.Fleet.Bound | app/engines/ratelimit.py:66-76 | the bound holds of the calls that a deployment has really made |
| RateLimit.AcquisitionsAreApart | app/engines/ratelimit.py:79-94 | successful acquisitions are at least the ttl apart |
| Otp.OtpEngine.EnforceSendLimits | app/engines/otp.py:46-68 | three gates in order; each is counted only if the earlier ones passed; what every key's log holds afterwards |
| Otp.OtpEngine.InvalidatePending | app/engines/otp.py:71-82 | exactly the live challenges are expired |
| Otp.OtpEngine.SendOtp | app/engines/otp.py:85-122 | sent exactly when all three gates pass and the gateway delivers; every request past the cooldown is counted, a challenge appears only when sent |
| Otp.OtpEngine.LatestChallenge | app/engines/otp.py:125-135 | a request loads the latest challenge, without a lock, as all commits so far have left it |
| Otp.OtpEngine.Compare | app/engines/otp.py:136-177 | however many other requests commit in between: every branch is decided on the challenge as loaded, and the count written back is the loaded one plus one |
| Otp.OtpEngine.VerifyOtp | app/engines/otp.py:134-177 | a request that no other overlaps: outcome and new challenge state for every branch, on the latest challenge only |
| Otp.CheckWrittenMeans | app/engines/otp.py:134-177 | for the challenges a request has loaded: PASSED is written exactly for the right code on a live challenge with attempts left, FAILED exactly when the live challenge has used them all |
| Otp.CurrentIsSerial | app/engines/otp.py:134-177 | if every verification commits on the challenges it had loaded, overlapping requests leave what the same requests leave one after the other |
| Otp.EveryHistoryOk | app/engines/otp.py:71-177 | then, over every series of requests: attempts bounded and equal to the comparisons, only the latest challenge can be live, each comparison with the latest challenge within its lifetime, the passes exactly the comparisons whose code matched, once per challenge |
| Otp.CountsExactly | app/engines/otp.py:134-151 | over every overlap the stored count of a challenge is at all times the number of comparisons with it exactly if no comparison with it missed, between load and commit, another one |
| Otp.ComparedAtMost | app/engines/otp.py:142-151 | over every overlap: if no comparison with a challenge missed more than `m` others, it is compared at most `max attempts * (m + 1)` times |
| Otp.BurstIsCompared | app/engines/otp.py:134-151 | any number of wrong codes that all load the challenge before one of them commits are all compared, and the stored count ends at 1 |
| Otp.OverlapBreaksTheBound | app/engines/otp.py:134-151 | so without a condition on the overlap one send window has no bound on comparisons |
| Otp.GuessedChallenges | app/engines/otp.py:125-177 | in an interval only challenges created in it, and the one before them, can be guessed at |
| Otp.GuessBound | app/engines/otp.py:46-177 | if every comparison is with the challenge still the latest when it commits and missed at most `m` others, any send window sees at most `(max sends per session + 1) * max attempts * (m + 1)` code comparisons |
| Otp.WithoutOverlap | app/engines/otp.py:46-177 | requests that do not overlap meet the condition with `m = 0`: at most `(max sends per session + 1) * max attempts` |
| Otp.OtpEngine.Bound | app/engines/otp.py:46-177 | the bound, under the same condition on the overlap, holds of whatever has really been asked of an engine |
| Mrz.SubstitutionMissed | app/engines/providers/mrz.py:14-24 | a check digit misses a substitution exactly when the values agree modulo 10 |
| Mrz.SwapMissed | app/engines/providers/mrz.py:14-24 | a check digit misses an adjacent swap exactly when the values agree modulo 5 |
| Mrz.SingleErrorMissedExactly | app/engines/providers/mrz.py:38-70 | a changed character keeps a valid line passing exactly at nationality and sex, or at a data position with values equal modulo 10 |
| Mrz.SwapMissedExactly | app/engines/providers/mrz.py:38-70 | a swap inside a data field keeps a valid line passing exactly when the values agree modulo 5 |
| Mrz.ConfusableCharacters | app/engines/providers/mrz.py:11-19 | two characters of the alphabet can replace each other unnoticed exactly within one of ten listed classes |
| Mrz.NormalizeKeepsLegal | app/engines/providers/mrz.py:76-78 | every legal character is kept in its place among the legal ones, up to 44; nothing else is |
| Mrz.FindMrz | app/engines/providers/mrz.py:81-87 | the first candidate that opens a zone with its successor, or none has both |
| Vault.Header | app/services/vault.py:109-110 | twelve octets for every version below 2^32, the error from there on |
| Vault.OpenUndoesSeal | app/services/vault.py:117-144 | a blob opens to its data whatever version it was sealed under |
| Vault.OnlyOwnerOpens | app/services/vault.py:117-144 | given authenticity, a sealed blob opens for its tenant and for no other, even with equal keys |
| Vault.PlainOpensExactly | app/services/vault.py:127-130 | unencrypted bytes read as themselves exactly when they do not carry the marker |
| Vault.Archive.StoreArtifact | app/services/archive.py:20-46 | a stored artifact reads back exactly when encryption is on or the data lacks the marker; no other blob changes |
| Vault.Archive.Delete | app/services/storage.py:54-60 | removes that blob only, and says whether it was there |
| Vault.ArtifactFollowsItsLocation | app/services/archive.py:49-53 | over any later traffic an artifact reads the same until its own vault and key are used again, then what that last operation left |
| Vault.SharesLocationExactly | app/services/storage.py:159-161 | two uploads share a blob exactly when vault, tenant, day, session, kind up to case, and filename agree |
| Vault.SameKeyReplaces | app/services/archive.py:20-53 | the earlier of two uploads that share a blob then reads the later one |
| Retention.DeleteBlob | app/services/retention.py:77-95 | one artifact: skipped, counted as failed, deleted or missing, and marked accordingly |
| Retention.DeleteBlobs | app/services/retention.py:74-95 | the loop over all artifacts yields the specified rows and counts |
| Retention.Registry.PurgeSession | app/services/retention.py:56-128 | evidence first, then blobs, then personal data; counts add up to the artifacts not yet purged, and those still open are the failed ones |
| Retention.PurgeConserves | app/services/retention.py:74-95 | deleted + missing + failed equals the open artifacts, and exactly the failed stay open |
| Retention.PurgeInTransaction | app/services/retention.py:56-153 | a run up to the end of its transaction: the blobs are gone either way, rows, wiped data and evidence events are kept only if it commits |
| Retention.AttemptsConserve | app/services/retention.py:74-95 | however often the purge of a session is rolled back, every blob is deleted by exactly one attempt or still there |
| Retention.RolledBackCountAsMissing | app/services/retention.py:74-95 | the run that commits, without refusals, counts as missing the blobs missing from the start plus exactly those that rolled-back attempts deleted |
| Retention.PurgeWipes | app/services/retention.py:97-119 | nothing personal is left, the fact of consent is |
| Retention.PurgeKeepsChain | app/services/retention.py:59-119 | the chain still verifies, and ends in an event listing the digest of every kept artifact row |
| Retention.RefusedBlobIsNotRetried | app/services/retention.py:82-121 | a purged session is never eligible again, whatever was refused |
| Retention.SelectedAreEligible | app/services/retention.py:45-53 | the batch holds eligible sessions only, each once, as many as fit |
| Retention.Registry.PurgeExpiredSessions | app/services/retention.py:131-153 | exactly the batch is purged, every other session unchanged, totals are the sums |
| Retention.BacklogEmptiesExactly | app/services/retention.py:131-153 | at a fixed time the backlog of n is empty after exactly ceil(n / batch) runs |
| Retention.PurgedAtMostOnce | app/services/retention.py:45-53 | a session is taken by at most one run |

## Left out

- HTTP routes, authentication, schemas, templates, client SDKs, migrations and deployment files.
- Columns written outside the row lock (identity, consent, metadata) in the interleaved model; the purge models them on their own.
- The interleaved model has one session; the loops of the sweep and the purge over many sessions are modelled one transaction at a time.
- Locks and isolation of the database beyond the row lock, the unique constraint, commit and rollback; which transaction the database aborts in a deadlock.
- Kyc.CreateSession: leaves out the regulatory profile and the access token; the payload of its event is an input.
- Tasks.VerifyDocument: the JSON of the events that tasks note is a label.
- Sweep.ReconcileStuckSessions: reads and writes without other workers in between; scans that are overtaken are `Protocol.ScanRow`.
- Canonical JSON and SHA-256: the event hash is a function of the hashed fields.
- Tsa.VerifyRfc3161: keeps genTime as the octets read, not as decoded text; whether the trusted CA file exists is an input.
- Dispatch between internal and RFC 3161 tokens by first byte, provider lookup and policy resolution.
- Asn1.EncodeOidContent: stands for the content octets; the TLV around them is written by `Tlv`. Negative arcs are not modelled.
- Otp.OtpEngine.SendOtp: takes effect in one step; of two sends that overlap, the later may leave the challenge of the earlier one live.
- Otp.GuessBound: is stated for one limiter backend; with failover the sends are bounded by `RateLimit.FailoverBound` instead.
- Challenges with equal creation times: the one added last counts as the latest.
- RateLimit.Backend.Count: a restarted process counts as a further memory; floating-point clock values are integers.
- Redis expiry is taken at the same instant rule as the process memory.
- Decision.ComputeRisk: exact reals instead of binary floating point; rounding to hundredths is ties to even.
- Mrz.SingleErrorMissedExactly: character values follow the source for ASCII; Unicode digits and upper-casing beyond it are not modelled.
- Mrz.FindMrz: ASCII letters only for upper-casing; the text fields and dates that `parse_td3` also returns are left out.
- Vault.Archive.StoreArtifact: takes the location as an input (`Vault.LocationOf` builds it); the storage backends are left out.
- Vault.SharesLocationExactly: holds for tenant, session and kind without a slash, as the platform generates them.
- AES-GCM and HKDF are parameters with stated hypotheses; key files and key rotation procedures are left out.
- Retention.Registry.PurgeExpiredSessions: takes sessions in table order and vault answers as an input; the database may return them in any order, which `Retention.Run` allows.
- Retention.PurgeInTransaction: takes every artifact to have a blob of its own; uploads that share one are `Vault.SharesLocationExactly`.
- OCR, liveness and face matching themselves, gateways, PDF and signature services, logging and timing.
