/**
 The OTP engine (app/engines/otp.py): send limits, one live challenge per
 session, bounded attempts.  A verification reads its challenge without a lock and
 writes back later, so requests of one session may overlap.  The clock, the
 gateway's answer and the generated code are inputs.
 */
module Otp {
  import opened Enums
  import opened RateLimit

  type CodeHash = string

  datatype Limits = Limits(
    ttl: nat, maxAttempts: nat, cooldown: int, window: nat, maxSendsPerSession: nat, maxSendsPerDestination: nat)

  /** A stored challenge, by value. */
  datatype Challenge = Challenge(
    codeHash: CodeHash, createdAt: int, attempts: nat, expiresAt: int, verifiedAt: Option<int>)

  datatype SendResult = Sent | RateLimited | DeliveryFailed

  /** `failed`: this wrong code was the last one allowed. */
  datatype VerifyResult =
    | NoChallenge
    | AlreadyVerified
    | CodeExpired
    | TooManyAttempts
    | Wrong(failed: bool)
    | Matched

  predicate Live(c: Challenge, now: int) {
    c.verifiedAt.None? && c.expiresAt > now
  }

  function Invalidate(challenges: seq<Challenge>, now: int): seq<Challenge> {
    seq(|challenges|, i requires 0 <= i < |challenges| =>
      if Live(challenges[i], now) then challenges[i].(expiresAt := now) else challenges[i])
  }

  function AfterSend(limits: Limits, challenges: seq<Challenge>, codeHash: CodeHash, now: int): seq<Challenge> {
    Invalidate(challenges, now) + [Challenge(codeHash, now, 0, now + limits.ttl, None)]
  }

  function VerifyOutcome(limits: Limits, challenges: seq<Challenge>, codeHash: CodeHash, now: int): VerifyResult {
    OutcomeFor(limits, Latest(challenges), codeHash, now)
  }

  function Latest(challenges: seq<Challenge>): Option<Challenge> {
    if challenges == [] then None else Some(challenges[|challenges| - 1])
  }

  function OutcomeFor(limits: Limits, loaded: Option<Challenge>, codeHash: CodeHash, now: int): VerifyResult {
    if loaded.None? then NoChallenge
    else
      var latest := loaded.value;
      if latest.verifiedAt.Some? then AlreadyVerified
      else if latest.expiresAt <= now then CodeExpired
      else if latest.attempts >= limits.maxAttempts then TooManyAttempts
      else if latest.codeHash == codeHash then Matched
      else Wrong(latest.attempts + 1 >= limits.maxAttempts)
  }

  function AfterVerify(limits: Limits, challenges: seq<Challenge>, codeHash: CodeHash, now: int): seq<Challenge> {
    var outcome := VerifyOutcome(limits, challenges, codeHash, now);
    if outcome.Wrong? || outcome.Matched? then
      var n := |challenges| - 1;
      var latest := challenges[n];
      challenges[n := latest.(attempts := latest.attempts + 1,
                 verifiedAt := if outcome.Matched? then Some(now) else None)]
    else challenges
  }

  /** What the request writes to the session's OTP check: passed, failed, or nothing. */
  function CheckWritten(outcome: VerifyResult): Option<CheckStatus> {
    match outcome
    case Matched => Some(Passed)
    case TooManyAttempts => Some(Failed)
    case Wrong(failed) => if failed then Some(Failed) else None
    case _ => None
  }

  /** PASSED needs the right code on a live challenge with attempts left; FAILED, one that has used them all. */
  lemma CheckWrittenMeans(limits: Limits, challenges: seq<Challenge>, codeHash: CodeHash, now: int)
    ensures var n := |challenges| - 1;
            var written := CheckWritten(VerifyOutcome(limits, challenges, codeHash, now));
            var after := AfterVerify(limits, challenges, codeHash, now);
            && (written == Some(Passed) <==>
                n >= 0 && Live(challenges[n], now) && challenges[n].attempts < limits.maxAttempts
                && challenges[n].codeHash == codeHash)
            && (written == Some(Failed) <==>
                n >= 0 && Live(challenges[n], now) && Live(after[n], now) && after[n].attempts >= limits.maxAttempts)
  {
  }

  // ---- The engine in place --------------------------------------------------

  class OtpChallenge {
    const codeHash: CodeHash
    const createdAt: int
    var attempts: nat
    var expiresAt: int
    var verifiedAt: Option<int>

    constructor (codeHash: CodeHash, now: int, expiresAt: int)
      ensures Value() == Challenge(codeHash, now, 0, expiresAt, None)
    {
      this.codeHash := codeHash;
      this.createdAt := now;
      this.attempts := 0;
      this.expiresAt := expiresAt;
      this.verifiedAt := None;
    }

    function Value(): Challenge
      reads this
    {
      Challenge(codeHash, createdAt, attempts, expiresAt, verifiedAt)
    }
  }

  function Values(challenges: seq<OtpChallenge>): seq<Challenge>
    reads challenges
  {
    seq(|challenges|, i requires 0 <= i < |challenges| reads challenges => challenges[i].Value())
  }

  /** The gates of a send, over the hits of the three keys. */
  predicate Cooled(limits: Limits, cooldown: seq<Hit>, now: int) {
    limits.cooldown <= 0 || !Running(cooldown, now)
  }

  function Counted(limits: Limits, hits: seq<Hit>, now: int): seq<Hit> {
    hits + [Hit(now, limits.window)]
  }

  predicate WithinSession(limits: Limits, hits: seq<Hit>, now: int) {
    RunLength(Counted(limits, hits, now)) <= limits.maxSendsPerSession
  }

  predicate WithinDestination(limits: Limits, hits: seq<Hit>, now: int) {
    RunLength(Counted(limits, hits, now)) <= limits.maxSendsPerDestination
  }

  /** All three gates let the send through. */
  predicate Passes(limits: Limits, log: map<Key, seq<Hit>>, session: string, destination: string, now: int) {
    && Cooled(limits, LogOf(log, Cooldown(session)), now)
    && WithinSession(limits, LogOf(log, SendSession(session)), now)
    && WithinDestination(limits, LogOf(log, SendDestination(destination)), now)
  }

  /** Every request that gets past the cooldown counts. */
  function SendsAfter(limits: Limits, log: map<Key, seq<Hit>>, session: string, now: int): seq<Hit> {
    var sends := LogOf(log, SendSession(session));
    if Cooled(limits, LogOf(log, Cooldown(session)), now) then Counted(limits, sends, now) else sends
  }

  lemma OnlyKeyChanges(before: map<Key, seq<Hit>>, after: map<Key, seq<Hit>>, key: Key)
    requires after == before || (key in after && after == before[key := after[key]])
    ensures forall other :: other != key ==> LogOf(after, other) == LogOf(before, other)
  {
  }

  class OtpEngine {
    const limits: Limits
    const limiter: Backend
    const session: string
    var challenges: seq<OtpChallenge>
    ghost var visits: seq<Visit>

    ghost predicate Distinct()
      reads this
    {
      forall i, j :: 0 <= i < j < |challenges| ==> challenges[i] != challenges[j]
    }

    /** Challenges and counted sends are those that the visits so far lead to. */
    ghost predicate Valid()
      reads this, limiter, challenges
    {
      && limiter.Valid() && Distinct()
      && Values(challenges) == Overlapped(limits, visits).challenges
      && LogOf(limiter.log, SendSession(session)) == Overlapped(limits, visits).hits
    }

    /** A new session has no counted sends. */
    constructor (limits: Limits, limiter: Backend, session: string)
      requires limiter.Valid() && LogOf(limiter.log, SendSession(session)) == []
      ensures Valid() && challenges == [] && visits == []
      ensures this.limits == limits && this.limiter == limiter && this.session == session
    {
      this.limits := limits;
      this.limiter := limiter;
      this.session := session;
      challenges, visits := [], [];
    }

    /** The three gates in order; each later one is only reached, and only counted, if the earlier pass. */
    method EnforceSendLimits(destination: string, now: int) returns (ok: bool)
      requires limiter.Valid()
      modifies limiter
      ensures limiter.Valid()
      ensures var cooldown := LogOf(old(limiter.log), Cooldown(session));
              var sends := LogOf(old(limiter.log), SendSession(session));
              var others := LogOf(old(limiter.log), SendDestination(destination));
              var cooled := Cooled(limits, cooldown, now);
              var counted := cooled && WithinSession(limits, sends, now);
              && LogOf(limiter.log, Cooldown(session))
                 == (if cooled && limits.cooldown > 0 then cooldown + [Hit(now, limits.cooldown)] else cooldown)
              && LogOf(limiter.log, SendSession(session)) == (if cooled then Counted(limits, sends, now) else sends)
              && LogOf(limiter.log, SendDestination(destination))
                 == (if counted then Counted(limits, others, now) else others)
              && (ok <==> counted && WithinDestination(limits, others, now))
      ensures forall key :: key !in {Cooldown(session), SendSession(session), SendDestination(destination)} ==>
                              LogOf(limiter.log, key) == LogOf(old(limiter.log), key)
    {
      ghost var log := limiter.log;
      var cooled := limiter.AcquireOnce(Cooldown(session), limits.cooldown, now);
      OnlyKeyChanges(log, limiter.log, Cooldown(session));
      if !cooled {
        return false;
      }
      log := limiter.log;
      var sends := limiter.Count(SendSession(session), limits.window, now);
      OnlyKeyChanges(log, limiter.log, SendSession(session));
      if sends > limits.maxSendsPerSession {
        return false;
      }
      log := limiter.log;
      var toDestination := limiter.Count(SendDestination(destination), limits.window, now);
      OnlyKeyChanges(log, limiter.log, SendDestination(destination));
      return toDestination <= limits.maxSendsPerDestination;
    }

    method InvalidatePending(now: int)
      requires Distinct()
      modifies challenges
      ensures Values(challenges) == Invalidate(old(Values(challenges)), now)
    {
      ghost var was := Values(challenges);
      for i := 0 to |challenges|
        invariant Distinct()
        invariant forall j :: 0 <= j < i ==> challenges[j].Value() == Invalidate(was, now)[j]
        invariant forall j :: i <= j < |challenges| ==> challenges[j].Value() == was[j]
      {
        if challenges[i].verifiedAt.None? && challenges[i].expiresAt > now {
          challenges[i].expiresAt := now;
        }
      }
    }

    method AddChallenge(codeHash: CodeHash, now: int)
      requires Distinct()
      modifies this`challenges, challenges
      ensures Distinct() && Values(challenges) == AfterSend(limits, old(Values(challenges)), codeHash, now)
      ensures forall c :: c in challenges ==> c in old(challenges) || fresh(c)
    {
      InvalidatePending(now);
      ghost var invalidated := Values(challenges);
      var challenge := new OtpChallenge(codeHash, now, now + limits.ttl);
      challenges := challenges + [challenge];
      assert Values(challenges) == invalidated + [challenge.Value()];
    }

    /**
     `delivered` is the gateway's answer: a failed delivery leaves no challenge behind.
     Sent exactly when all three gates pass and the gateway delivers; every request that
     gets past the cooldown is counted, whatever becomes of it.
     */
    method SendOtp(destination: string, codeHash: CodeHash, delivered: bool, now: int) returns (result: SendResult)
      requires Valid()
      modifies this, limiter, challenges
      ensures Valid()
      ensures var passed := Passes(limits, old(limiter.log), session, destination, now);
              (result.Sent? <==> passed && delivered) && (result.RateLimited? <==> !passed)
      ensures if Cooled(limits, LogOf(old(limiter.log), Cooldown(session)), now)
              then visits == old(visits) + [Visit(Send(now, result.Sent?, codeHash), |old(visits)|)]
              else visits == old(visits)
    {
      ghost var before := visits;
      ghost var cooled := Cooled(limits, LogOf(limiter.log, Cooldown(session)), now);
      result := GateAndDeliver(destination, codeHash, delivered, now);
      if cooled {
        SendSettles(limits, before, now, result.Sent?, codeHash);
        visits := before + [Visit(Send(now, result.Sent?, codeHash), |before|)];
      }
    }

    method GateAndDeliver(destination: string, codeHash: CodeHash, delivered: bool, now: int)
      returns (result: SendResult)
      requires limiter.Valid() && Distinct()
      modifies this`challenges, limiter, challenges
      ensures limiter.Valid() && Distinct()
      ensures forall c :: c in challenges ==> c in old(challenges) || fresh(c)
      ensures var passed := Passes(limits, old(limiter.log), session, destination, now);
              (result.Sent? <==> passed && delivered) && (result.RateLimited? <==> !passed)
      ensures LogOf(limiter.log, SendSession(session)) == SendsAfter(limits, old(limiter.log), session, now)
      ensures Values(challenges) == if result.Sent? then AfterSend(limits, old(Values(challenges)), codeHash, now)
                                    else old(Values(challenges))
    {
      ghost var was := Values(challenges);
      var ok := EnforceSendLimits(destination, now);
      assert Values(challenges) == was;
      if !ok {
        result := RateLimited;
      } else if !delivered {
        result := DeliveryFailed;
      } else {
        AddChallenge(codeHash, now);
        result := Sent;
      }
    }

    /** The row as the request reads it, without a lock; `read` counts the visits committed by then. */
    method LatestChallenge() returns (index: int, loaded: Option<Challenge>, ghost read: nat)
      requires Valid()
      ensures index == |challenges| - 1 && loaded == Latest(Values(challenges))
      ensures read == |visits| && Loaded(index, loaded, read)
    {
      index, loaded, read := |challenges| - 1, None, |visits|;
      assert visits[..|visits|] == visits;
      if |challenges| > 0 {
        loaded := Some(challenges[index].Value());
        assert Values(challenges)[index] == challenges[index].Value();
      }
    }

    /** `loaded` is the latest challenge as `read` visits left it, however many have committed since. */
    ghost predicate Loaded(index: int, loaded: Option<Challenge>, read: nat)
      reads this
    {
      && read <= |visits|
      && var seen := Overlapped(limits, visits[..read]).challenges;
         index == |seen| - 1 && loaded == Latest(seen)
    }

    /** The rest of the request: decided on the row it loaded, written over the row as it is by now. */
    method Compare(index: int, loaded: Option<Challenge>, ghost read: nat, codeHash: CodeHash, now: int)
      returns (result: VerifyResult)
      requires Valid() && Loaded(index, loaded, read)
      modifies this`visits, challenges
      ensures Valid() && visits == old(visits) + [Visit(Verify(now, codeHash), read)]
      ensures result == VerifyOutcome(limits, Overlapped(limits, old(visits)[..read]).challenges, codeHash, now)
    {
      ghost var before := visits;
      CompareSettles(limits, before, read, codeHash, now);
      result := Answer(index, loaded, codeHash, now);
      visits := before + [Visit(Verify(now, codeHash), read)];
    }

    method Answer(index: int, loaded: Option<Challenge>, codeHash: CodeHash, now: int) returns (result: VerifyResult)
      requires Distinct() && (loaded.Some? ==> 0 <= index < |challenges|)
      modifies challenges
      ensures result == OutcomeFor(limits, loaded, codeHash, now)
      ensures Values(challenges) == WrittenBy(result, old(Values(challenges)), index, loaded, now)
    {
      ghost var was := Values(challenges);
      if loaded.None? {
        return NoChallenge;
      }
      var challenge := loaded.value;
      if challenge.verifiedAt.Some? {
        return AlreadyVerified;
      }
      if challenge.expiresAt <= now {
        return CodeExpired;
      }
      if challenge.attempts >= limits.maxAttempts {
        return TooManyAttempts;
      }
      var row := challenges[index];
      assert was[index] == row.Value();
      row.attempts := challenge.attempts + 1;
      if codeHash != challenge.codeHash {
        result := Wrong(challenge.attempts + 1 >= limits.maxAttempts);
      } else {
        row.verifiedAt := Some(now);
        result := Matched;
      }
      assert Values(challenges) == was[index := row.Value()];
    }

    /** A request that no other one overlaps. */
    method VerifyOtp(codeHash: CodeHash, now: int) returns (result: VerifyResult)
      requires Valid()
      modifies this`visits, challenges
      ensures Valid() && visits == old(visits) + [Visit(Verify(now, codeHash), |old(visits)|)]
      ensures result == VerifyOutcome(limits, old(Values(challenges)), codeHash, now)
      ensures Values(challenges) == AfterVerify(limits, old(Values(challenges)), codeHash, now)
    {
      var index, loaded, read := LatestChallenge();
      assert visits[..|visits|] == visits;
      CurrentVisitIsHandled(limits, visits, Verify(now, codeHash));
      result := Compare(index, loaded, read, codeHash, now);
    }

    /** Whatever was asked of the engine so far: the bound on code comparisons in any send window. */
    lemma Bound(missed: nat, a: int)
      requires Valid() && InOrder(visits) && OverlapAtMost(limits, visits, missed)
      ensures var h := Overlapped(limits, visits);
              && h.challenges == Values(challenges)
              && Guesses(h.comparisons, a, a + limits.window, 0, |h.challenges|)
                 <= (limits.maxSendsPerSession + 1) * Allowed(limits.maxAttempts, missed)
    {
      GuessBound(limits, visits, missed, a);
    }
  }

  lemma {:induction false} SendSettles(limits: Limits, visits: seq<Visit>, now: int, through: bool, codeHash: CodeHash)
    requires through ==> WithinSession(limits, Overlapped(limits, visits).hits, now)
    ensures var before := Overlapped(limits, visits);
            var after := Overlapped(limits, visits + [Visit(Send(now, through, codeHash), |visits|)]);
            && after.hits == Counted(limits, before.hits, now)
            && after.challenges == if through then AfterSend(limits, before.challenges, codeHash, now) else before.challenges
  {
    OneMoreVisit(limits, visits, Visit(Send(now, through, codeHash), |visits|));
  }

  lemma {:induction false} CompareSettles(limits: Limits, visits: seq<Visit>, read: nat, codeHash: CodeHash, now: int)
    requires read <= |visits|
    ensures var seen := Overlapped(limits, visits[..read]).challenges;
            var before := Overlapped(limits, visits);
            var after := Overlapped(limits, visits + [Visit(Verify(now, codeHash), read)]);
            && |seen| <= |before.challenges|
            && after.hits == before.hits
            && after.challenges
               == WrittenBy(VerifyOutcome(limits, seen, codeHash, now), before.challenges, |seen| - 1, Latest(seen), now)
  {
    var visit := Visit(Verify(now, codeHash), read);
    OneMoreVisit(limits, visits, visit);
    LaterChallenges(limits, visits, read);
    assert visits[..|visits|] == visits;
    SettledRow(limits, Overlapped(limits, visits), Seen(limits, visits, read).challenges, visit.request);
  }

  // ---- Runs -----------------------------------------------------------------

  /** One code comparison: when, against which challenge, and the code submitted. */
  datatype Comparison = Comparison(at: int, index: nat, code: CodeHash)

  /** What a session accumulates: its send hits, challenges, comparisons and the passes written. */
  datatype History = History(
    hits: seq<Hit>, challenges: seq<Challenge>, comparisons: seq<Comparison>, passes: seq<Comparison>)

  const EMPTY_HISTORY := History([], [], [], [])

  /** A send that reached the session counter, and whether the later gates and the gateway let it through. */
  datatype Request = Send(now: int, through: bool, codeHash: CodeHash) | Verify(now: int, codeHash: CodeHash)

  function Handle(limits: Limits, h: History, r: Request): History {
    match r
    case Send(now, through, codeHash) =>
      var hits := h.hits + [Hit(now, limits.window)];
      if through && RunLength(hits) <= limits.maxSendsPerSession
      then h.(hits := hits, challenges := AfterSend(limits, h.challenges, codeHash, now))
      else h.(hits := hits)
    case Verify(now, codeHash) =>
      var outcome := VerifyOutcome(limits, h.challenges, codeHash, now);
      var compared := outcome.Wrong? || outcome.Matched?;
      h.(challenges := AfterVerify(limits, h.challenges, codeHash, now),
      comparisons := if compared then h.comparisons + [Comparison(now, |h.challenges| - 1, codeHash)] else h.comparisons,
      passes := if outcome.Matched? then h.passes + [Comparison(now, |h.challenges| - 1, codeHash)] else h.passes)
  }

  function Play(limits: Limits, requests: seq<Request>): History {
    if requests == [] then EMPTY_HISTORY
    else Handle(limits, Play(limits, requests[..|requests| - 1]), requests[|requests| - 1])
  }

  ghost predicate InTimeOrder(requests: seq<Request>) {
    forall i, j :: 0 <= i <= j < |requests| ==> requests[i].now <= requests[j].now
  }

  function On(comparisons: seq<Comparison>, index: nat): nat {
    if comparisons == [] then 0
    else On(comparisons[..|comparisons| - 1], index) + (if comparisons[|comparisons| - 1].index == index then 1 else 0)
  }

  /** Challenges created in (a, b]. */
  function Created(challenges: seq<Challenge>, a: int, b: int): nat {
    if challenges == [] then 0
    else
      Created(challenges[..|challenges| - 1], a, b)
      + (if a < challenges[|challenges| - 1].createdAt <= b then 1 else 0)
  }

  ghost predicate ChallengesOk(limits: Limits, h: History, now: int) {
    && (forall i :: 0 <= i < |h.challenges| ==>
                      h.challenges[i].attempts <= limits.maxAttempts
                      && h.challenges[i].createdAt <= now
                      && h.challenges[i].expiresAt <= h.challenges[i].createdAt + limits.ttl
                      && On(h.comparisons, i) == h.challenges[i].attempts)
    && (forall i, j :: 0 <= i <= j < |h.challenges| ==> h.challenges[i].createdAt <= h.challenges[j].createdAt)
    && (forall i :: 0 <= i < |h.challenges| - 1 ==> !Live(h.challenges[i], now))
  }

  /** The comparison was made while its challenge was the latest, and within its lifetime. */
  ghost predicate Timely(limits: Limits, c: Comparison, challenges: seq<Challenge>, now: int) {
    && c.index < |challenges| && c.at <= now
    && challenges[c.index].createdAt <= c.at < challenges[c.index].createdAt + limits.ttl
    && (forall j :: c.index < j < |challenges| ==> c.at <= challenges[j].createdAt)
  }

  ghost predicate ComparisonsOk(limits: Limits, h: History, now: int) {
    forall k :: 0 <= k < |h.comparisons| ==> Timely(limits, h.comparisons[k], h.challenges, now)
  }

  /** The passes are exactly the comparisons whose code is the challenge's own; each challenge passes once. */
  ghost predicate PassesOk(h: History) {
    && (forall c :: c in h.comparisons ==> c.index < |h.challenges|)
    && (forall c :: c in h.passes <==> c in h.comparisons && c.code == h.challenges[c.index].codeHash)
    && (forall p :: p in h.passes ==> h.challenges[p.index].verifiedAt == Some(p.at))
    && (forall i, j :: 0 <= i < j < |h.passes| ==> h.passes[i].index != h.passes[j].index)
  }

  ghost predicate HitsOk(limits: Limits, h: History, now: int) {
    && Ordered(h.hits, limits.window)
    && (forall i :: 0 <= i < |h.hits| ==> h.hits[i].at <= now)
    && (forall a, b :: Created(h.challenges, a, b) <= Accepted(h.hits, limits.maxSendsPerSession, a, b))
  }

  ghost predicate HistoryOk(limits: Limits, h: History, now: int) {
    ChallengesOk(limits, h, now) && ComparisonsOk(limits, h, now) && PassesOk(h) && HitsOk(limits, h, now)
  }

  lemma {:induction false} SameCreation(c: seq<Challenge>, d: seq<Challenge>, a: int, b: int)
    requires |c| == |d| && forall i :: 0 <= i < |c| ==> c[i].createdAt == d[i].createdAt
    ensures Created(c, a, b) == Created(d, a, b)
  {
    if c != [] {
      SameCreation(c[..|c| - 1], d[..|d| - 1], a, b);
    }
  }

  lemma {:induction false} NoneYet(comparisons: seq<Comparison>, index: nat)
    requires forall k :: 0 <= k < |comparisons| ==> comparisons[k].index < index
    ensures On(comparisons, index) == 0
  {
    if comparisons != [] {
      NoneYet(comparisons[..|comparisons| - 1], index);
    }
  }

  lemma SendKeepsHits(limits: Limits, h: History, r: Request)
    requires r.Send? && HitsOk(limits, h, r.now)
    ensures HitsOk(limits, Handle(limits, h, r), r.now)
  {
    var after := Handle(limits, h, r);
    forall a, b ensures Created(after.challenges, a, b) <= Accepted(after.hits, limits.maxSendsPerSession, a, b) {
      assert Created(h.challenges, a, b) <= Accepted(h.hits, limits.maxSendsPerSession, a, b);
      AcceptedBySend(h.hits, Hit(r.now, limits.window), limits.maxSendsPerSession, a, b);
      CreatedBySend(limits, h.challenges, r.codeHash, r.now, a, b);
    }
  }

  lemma {:induction false} AcceptedBySend(hits: seq<Hit>, hit: Hit, max: nat, a: int, b: int)
    ensures Accepted(hits + [hit], max, a, b)
         == Accepted(hits, max, a, b) + (if RunLength(hits + [hit]) <= max && a < hit.at <= b then 1 else 0)
  {
    assert (hits + [hit])[..|hits|] == hits;
  }

  lemma {:induction false} CreatedBySend(
    limits: Limits, challenges: seq<Challenge>, codeHash: CodeHash, now: int, a: int, b: int)
    ensures Created(AfterSend(limits, challenges, codeHash, now), a, b)
         == Created(challenges, a, b) + (if a < now <= b then 1 else 0)
  {
    var invalidated := Invalidate(challenges, now);
    var after := AfterSend(limits, challenges, codeHash, now);
    SameCreation(challenges, invalidated, a, b);
    assert after[..|after| - 1] == invalidated;
  }

  lemma InvalidateKeeps(limits: Limits, challenges: seq<Challenge>, now: int)
    ensures var after := Invalidate(challenges, now);
            |after| == |challenges|
            && forall i :: 0 <= i < |challenges| ==>
                             !Live(after[i], now) && after[i].expiresAt <= challenges[i].expiresAt
                             && after[i] == challenges[i].(expiresAt := after[i].expiresAt)
  {
  }

  lemma SendKeepsChallenges(limits: Limits, h: History, r: Request)
    requires r.Send? && ChallengesOk(limits, h, r.now) && ComparisonsOk(limits, h, r.now)
    ensures ChallengesOk(limits, Handle(limits, h, r), r.now)
  {
    InvalidateKeeps(limits, h.challenges, r.now);
    NoneYet(h.comparisons, |h.challenges|);
  }

  lemma SendKeepsComparisons(limits: Limits, h: History, r: Request)
    requires r.Send? && ComparisonsOk(limits, h, r.now)
    ensures ComparisonsOk(limits, Handle(limits, h, r), r.now)
  {
  }

  lemma SendKeepsPasses(limits: Limits, h: History, r: Request)
    requires r.Send? && PassesOk(h)
    ensures PassesOk(Handle(limits, h, r))
  {
  }

  lemma {:induction false} AppendOn(comparisons: seq<Comparison>, c: Comparison, index: nat)
    ensures On(comparisons + [c], index) == On(comparisons, index) + (if c.index == index then 1 else 0)
  {
    assert (comparisons + [c])[..|comparisons|] == comparisons;
  }

  lemma {:induction false} VerifyKeepsCounts(limits: Limits, h: History, r: Request, i: nat)
    requires r.Verify? && i < |h.challenges| && On(h.comparisons, i) == h.challenges[i].attempts <= limits.maxAttempts
    ensures var after := Handle(limits, h, r);
            |after.challenges| == |h.challenges|
            && On(after.comparisons, i) == after.challenges[i].attempts <= limits.maxAttempts
  {
    AppendOn(h.comparisons, Comparison(r.now, |h.challenges| - 1, r.codeHash), i);
  }

  lemma VerifyKeepsExpiry(limits: Limits, challenges: seq<Challenge>, codeHash: CodeHash, now: int)
    ensures var after := AfterVerify(limits, challenges, codeHash, now);
            && |after| == |challenges|
            && (forall i :: 0 <= i < |challenges| ==>
                              after[i].createdAt == challenges[i].createdAt && after[i].expiresAt == challenges[i].expiresAt)
            && (forall i :: 0 <= i < |challenges| - 1 ==> after[i] == challenges[i])
  {
  }

  lemma VerifyKeepsChallenges(limits: Limits, h: History, r: Request)
    requires r.Verify? && ChallengesOk(limits, h, r.now)
    ensures ChallengesOk(limits, Handle(limits, h, r), r.now)
  {
    var after := Handle(limits, h, r);
    VerifyKeepsExpiry(limits, h.challenges, r.codeHash, r.now);
    forall i | 0 <= i < |h.challenges|
      ensures On(after.comparisons, i) == after.challenges[i].attempts <= limits.maxAttempts
    {
      VerifyKeepsCounts(limits, h, r, i);
    }
  }

  lemma VerifyKeepsComparisons(limits: Limits, h: History, r: Request)
    requires r.Verify? && ChallengesOk(limits, h, r.now) && ComparisonsOk(limits, h, r.now)
    ensures ComparisonsOk(limits, Handle(limits, h, r), r.now)
  {
    var after := Handle(limits, h, r);
    VerifyKeepsCreation(limits, h.challenges, r.codeHash, r.now);
    forall k | 0 <= k < |after.comparisons| ensures Timely(limits, after.comparisons[k], after.challenges, r.now) {
      if k < |h.comparisons| {
        assert Timely(limits, h.comparisons[k], h.challenges, r.now);
      }
    }
  }

  lemma VerifyKeepsCreation(limits: Limits, challenges: seq<Challenge>, codeHash: CodeHash, now: int)
    ensures var after := AfterVerify(limits, challenges, codeHash, now);
            |after| == |challenges|
            && forall i :: 0 <= i < |challenges| ==>
                             after[i].createdAt == challenges[i].createdAt && after[i].codeHash == challenges[i].codeHash
  {
  }

  lemma VerifyKeepsPasses(limits: Limits, h: History, r: Request)
    requires r.Verify? && PassesOk(h)
    ensures PassesOk(Handle(limits, h, r))
  {
    var after := Handle(limits, h, r);
    var outcome := VerifyOutcome(limits, h.challenges, r.codeHash, r.now);
    if outcome.Matched? {
      var c := Comparison(r.now, |h.challenges| - 1, r.codeHash);
      assert after.passes == h.passes + [c] && after.comparisons == h.comparisons + [c];
      forall i | 0 <= i < |h.passes| ensures h.passes[i].index != c.index {
        assert h.passes[i] in h.passes;
      }
    } else if outcome.Wrong? {
      forall p | p in h.passes ensures p.index != |h.challenges| - 1 {}
    }
  }

  lemma VerifyKeepsHits(limits: Limits, h: History, r: Request)
    requires r.Verify? && HitsOk(limits, h, r.now)
    ensures HitsOk(limits, Handle(limits, h, r), r.now)
  {
    var after := Handle(limits, h, r);
    forall a, b ensures Created(after.challenges, a, b) <= Accepted(after.hits, limits.maxSendsPerSession, a, b) {
      SameCreation(h.challenges, after.challenges, a, b);
    }
  }

  lemma LaterStillOk(limits: Limits, h: History, now: int, later: int)
    requires HistoryOk(limits, h, now) && now <= later
    ensures HistoryOk(limits, h, later)
  {
  }

  lemma {:induction false} SerialHistoryOk(limits: Limits, requests: seq<Request>, now: int)
    requires InTimeOrder(requests)
    requires forall i :: 0 <= i < |requests| ==> requests[i].now <= now
    ensures HistoryOk(limits, Play(limits, requests), now)
  {
    if requests != [] {
      var n := |requests| - 1;
      var r := requests[n];
      SerialHistoryOk(limits, requests[..n], r.now);
      var h := Play(limits, requests[..n]);
      if r.Send? {
        SendKeepsHits(limits, h, r);
        SendKeepsChallenges(limits, h, r);
        SendKeepsComparisons(limits, h, r);
        SendKeepsPasses(limits, h, r);
      } else {
        VerifyKeepsHits(limits, h, r);
        VerifyKeepsChallenges(limits, h, r);
        VerifyKeepsComparisons(limits, h, r);
        VerifyKeepsPasses(limits, h, r);
      }
      LaterStillOk(limits, Handle(limits, h, r), r.now, now);
    }
  }

  // ---- Overlapping requests -------------------------------------------------

  /** A request in commit order; `read` counts the commits it had seen when it loaded its challenge. */
  datatype Visit = Visit(request: Request, read: nat)

  /** The row is written whole fields at a time: attempts always, `verified_at` only by a match. */
  function Written(challenges: seq<Challenge>, index: int, attempts: nat, matched: bool, now: int): seq<Challenge> {
    if 0 <= index < |challenges| then
      var c := challenges[index];
      challenges[index := c.(attempts := attempts, verifiedAt := if matched then Some(now) else c.verifiedAt)]
    else challenges
  }

  /** What the outcome of a verification writes: nothing, unless a code was compared. */
  function WrittenBy(
    outcome: VerifyResult, challenges: seq<Challenge>, index: int, loaded: Option<Challenge>, now: int): seq<Challenge>
  {
    if loaded.Some? && (outcome.Wrong? || outcome.Matched?)
    then Written(challenges, index, loaded.value.attempts + 1, outcome.Matched?, now) else challenges
  }

  /** A verification decides on the challenges it has seen and writes over those of `h`. */
  function Settle(limits: Limits, h: History, seen: seq<Challenge>, r: Request): History {
    match r
    case Send(_, _, _) => Handle(limits, h, r)
    case Verify(now, codeHash) =>
      var outcome := VerifyOutcome(limits, seen, codeHash, now);
      if outcome.Wrong? || outcome.Matched? then
        var c := Comparison(now, |seen| - 1, codeHash);
        h.(challenges := Written(h.challenges, c.index, seen[c.index].attempts + 1, outcome.Matched?, now),
        comparisons := h.comparisons + [c],
        passes := if outcome.Matched? then h.passes + [c] else h.passes)
      else h
  }

  /** What the visits leave behind, in the order in which they commit. */
  function Overlapped(limits: Limits, visits: seq<Visit>): History
    decreases |visits|, 0
  {
    if visits == [] then EMPTY_HISTORY
    else
      var n := |visits| - 1;
      Settle(limits, Overlapped(limits, visits[..n]), Seen(limits, visits[..n], visits[n].read).challenges,
             visits[n].request)
  }

  /** The history of which a request had seen the first `read` commits. */
  function Seen(limits: Limits, visits: seq<Visit>, read: nat): History
    decreases |visits|, 1
  {
    Overlapped(limits, if read < |visits| then visits[..read] else visits)
  }

  function Requests(visits: seq<Visit>): seq<Request> {
    if visits == [] then [] else Requests(visits[..|visits| - 1]) + [visits[|visits| - 1].request]
  }

  lemma {:induction false} OneMoreVisit(limits: Limits, visits: seq<Visit>, v: Visit)
    ensures Overlapped(limits, visits + [v])
         == Settle(limits, Overlapped(limits, visits), Seen(limits, visits, v.read).challenges, v.request)
  {
    assert (visits + [v])[..|visits|] == visits;
  }

  /** A verification that has seen every commit is one of the requests taken one after the other. */
  lemma {:induction false} CurrentVisitIsHandled(limits: Limits, visits: seq<Visit>, r: Request)
    ensures Overlapped(limits, visits + [Visit(r, |visits|)]) == Handle(limits, Overlapped(limits, visits), r)
  {
    OneMoreVisit(limits, visits, Visit(r, |visits|));
    SettledIsHandled(limits, Overlapped(limits, visits), r);
  }

  lemma SettledRow(limits: Limits, h: History, seen: seq<Challenge>, r: Request)
    requires r.Verify?
    ensures var after := Settle(limits, h, seen, r);
            var outcome := VerifyOutcome(limits, seen, r.codeHash, r.now);
            && after.hits == h.hits
            && after.challenges == WrittenBy(outcome, h.challenges, |seen| - 1, Latest(seen), r.now)
  {
  }

  lemma SettledIsHandled(limits: Limits, h: History, r: Request)
    ensures Settle(limits, h, h.challenges, r) == Handle(limits, h, r)
  {
  }

  /** Every verification sees the challenges as they are when it commits. */
  ghost predicate AllCurrent(limits: Limits, visits: seq<Visit>) {
    forall k :: 0 <= k < |visits| && visits[k].request.Verify? ==>
                  Seen(limits, visits[..k], visits[k].read).challenges == Overlapped(limits, visits[..k]).challenges
  }

  /** Without stale reads the visits are their requests taken one after the other. */
  lemma {:induction false} CurrentIsSerial(limits: Limits, visits: seq<Visit>)
    requires AllCurrent(limits, visits)
    ensures Overlapped(limits, visits) == Play(limits, Requests(visits))
  {
    if visits != [] {
      var n := |visits| - 1;
      var before := visits[..n];
      forall k | 0 <= k < n && before[k].request.Verify?
        ensures Seen(limits, before[..k], before[k].read).challenges == Overlapped(limits, before[..k]).challenges
      {
        assert before[..k] == visits[..k];
      }
      CurrentIsSerial(limits, before);
      SettledIsHandled(limits, Overlapped(limits, before), visits[n].request);
      assert Requests(visits)[..n] == Requests(before) by {
        RequestsLength(before);
      }
      RequestsLength(visits);
    }
  }

  /**
   Over every series of visits without stale reads: no challenge exceeds its attempts,
   only the latest can be live, comparisons are with the challenge current at that time,
   and a pass is written only by a matching comparison, once per challenge.
   */
  lemma {:induction false} EveryHistoryOk(limits: Limits, visits: seq<Visit>, now: int)
    requires AllCurrent(limits, visits) && InTimeOrder(Requests(visits))
    requires forall i :: 0 <= i < |Requests(visits)| ==> Requests(visits)[i].now <= now
    ensures HistoryOk(limits, Overlapped(limits, visits), now)
  {
    CurrentIsSerial(limits, visits);
    SerialHistoryOk(limits, Requests(visits), now);
  }

  lemma {:induction false} RequestsLength(visits: seq<Visit>)
    ensures |Requests(visits)| == |visits|
  {
    if visits != [] {
      RequestsLength(visits[..|visits| - 1]);
    }
  }

  /** Comparisons name existing challenges, and no stored count exceeds the maximum. */
  ghost predicate StoredOk(limits: Limits, h: History) {
    && (forall k :: 0 <= k < |h.comparisons| ==> h.comparisons[k].index < |h.challenges|)
    && (forall i :: 0 <= i < |h.challenges| ==> h.challenges[i].attempts <= limits.maxAttempts)
  }

  lemma SettleKeepsStored(limits: Limits, h: History, seen: seq<Challenge>, r: Request)
    requires StoredOk(limits, h) && |seen| <= |h.challenges|
    ensures StoredOk(limits, Settle(limits, h, seen, r))
    ensures |h.challenges| <= |Settle(limits, h, seen, r).challenges|
  {
  }

  /** Challenges are only ever added, so the one a request loaded is still there when it commits. */
  lemma {:induction false} LaterChallenges(limits: Limits, visits: seq<Visit>, read: nat)
    ensures StoredOk(limits, Overlapped(limits, visits))
    ensures |Seen(limits, visits, read).challenges| <= |Overlapped(limits, visits).challenges|
    decreases |visits|
  {
    if visits != [] {
      var n := |visits| - 1;
      var before := visits[..n];
      LaterChallenges(limits, before, read);
      LaterChallenges(limits, before, visits[n].read);
      SettleKeepsStored(limits, Overlapped(limits, before), Seen(limits, before, visits[n].read).challenges,
                        visits[n].request);
      if read < n {
        assert before[..read] == visits[..read];
      } else if read == n {
        assert visits[..read] == before;
      }
    }
  }

  /** The challenge that a request compares its code with, if it gets that far. */
  function Compared(limits: Limits, seen: seq<Challenge>, r: Request): Option<nat> {
    if r.Send? then None
    else
      var outcome := VerifyOutcome(limits, seen, r.codeHash, r.now);
      if outcome.Wrong? || outcome.Matched? then Some(|seen| - 1) else None
  }

  function ComparedWith(limits: Limits, visits: seq<Visit>, k: nat): Option<nat>
    requires k < |visits|
  {
    Compared(limits, Seen(limits, visits[..k], visits[k].read).challenges, visits[k].request)
  }

  /** Comparisons with the challenge that the k-th visit does not know of when it commits. */
  function Missed(limits: Limits, visits: seq<Visit>, k: nat, index: nat): int
    requires k < |visits|
  {
    On(Overlapped(limits, visits[..k]).comparisons, index)
    - On(Seen(limits, visits[..k], visits[k].read).comparisons, index)
  }

  ghost predicate MissesAtMost(limits: Limits, visits: seq<Visit>, index: nat, missed: nat) {
    forall k :: 0 <= k < |visits| && ComparedWith(limits, visits, k) == Some(index) ==>
                  Missed(limits, visits, k, index) <= missed
  }

  lemma PrefixVisits(limits: Limits, visits: seq<Visit>, n: nat, k: nat)
    requires k < n <= |visits|
    ensures visits[..n][..k] == visits[..k]
    ensures ComparedWith(limits, visits[..n], k) == ComparedWith(limits, visits, k)
    ensures forall index: nat :: Missed(limits, visits[..n], k, index) == Missed(limits, visits, k, index)
  {
    assert visits[..n][..k] == visits[..k];
  }

  lemma PrefixMisses(limits: Limits, visits: seq<Visit>, n: nat, index: nat, missed: nat)
    requires MissesAtMost(limits, visits, index, missed) && n <= |visits|
    ensures MissesAtMost(limits, visits[..n], index, missed)
  {
    forall k | 0 <= k < n && ComparedWith(limits, visits[..n], k) == Some(index)
      ensures Missed(limits, visits[..n], k, index) <= missed
    {
      PrefixVisits(limits, visits, n, k);
    }
  }

  /** The stored count of a challenge, 0 before there is one. */
  function Stored(h: History, index: nat): nat {
    if index < |h.challenges| then h.challenges[index].attempts else 0
  }

  lemma SendStores(limits: Limits, h: History, r: Request, index: nat)
    requires r.Send? && StoredOk(limits, h)
    ensures Stored(Handle(limits, h, r), index) == Stored(h, index)
  {
  }

  lemma {:induction false} CompareStores(limits: Limits, h: History, seen: seq<Challenge>, r: Request, index: nat)
    requires StoredOk(limits, h) && |seen| <= |h.challenges| && r.Verify?
    ensures var after := Settle(limits, h, seen, r);
            if Compared(limits, seen, r) == Some(index) then
              && index < |seen|
              && Stored(after, index) == seen[index].attempts + 1
              && On(after.comparisons, index) == On(h.comparisons, index) + 1
            else
              Stored(after, index) == Stored(h, index) && On(after.comparisons, index) == On(h.comparisons, index)
  {
    if Compared(limits, seen, r).Some? {
      AppendOn(h.comparisons, Comparison(r.now, |seen| - 1, r.codeHash), index);
    }
  }

  /** One visit: a comparison stores one more than the count it had read, anything else keeps the count. */
  lemma {:induction false} StoredStep(limits: Limits, visits: seq<Visit>, index: nat)
    requires visits != []
    ensures var n := |visits| - 1;
            var before, after := Overlapped(limits, visits[..n]), Overlapped(limits, visits);
            if ComparedWith(limits, visits, n) == Some(index) then
              && Stored(after, index) == Stored(Seen(limits, visits[..n], visits[n].read), index) + 1
              && On(after.comparisons, index) == On(before.comparisons, index) + 1
            else
              Stored(after, index) == Stored(before, index)
              && On(after.comparisons, index) == On(before.comparisons, index)
  {
    var n := |visits| - 1;
    var h, r := Overlapped(limits, visits[..n]), visits[n].request;
    LaterChallenges(limits, visits[..n], visits[n].read);
    if r.Send? {
      SendStores(limits, h, r, index);
    } else {
      CompareStores(limits, h, Seen(limits, visits[..n], visits[n].read).challenges, r, index);
    }
  }

  /** Comparisons that a count allows when each of them may have missed `missed` others. */
  function Allowed(attempts: nat, missed: nat): nat {
    attempts * (missed + 1)
  }

  lemma AllowedOneMore(attempts: nat, missed: nat)
    ensures Allowed(attempts + 1, missed) == Allowed(attempts, missed) + missed + 1
  {
  }

  lemma OneMoreIsAllowed(made: nat, known: nat, stored: nat, missed: nat)
    requires made - known <= missed && known <= Allowed(stored, missed)
    ensures made + 1 <= Allowed(stored + 1, missed)
  {
    AllowedOneMore(stored, missed);
  }

  lemma AllowedMonotone(fewer: nat, attempts: nat, missed: nat)
    requires fewer <= attempts
    ensures Allowed(fewer, missed) <= Allowed(attempts, missed)
  {
    ProductMonotone(fewer, attempts, missed + 1);
  }

  lemma {:induction false} StoredCovers(limits: Limits, visits: seq<Visit>, index: nat, missed: nat)
    requires MissesAtMost(limits, visits, index, missed)
    ensures var h := Overlapped(limits, visits);
            On(h.comparisons, index) <= Allowed(Stored(h, index), missed)
    decreases |visits|, 0
  {
    if visits != [] {
      var n := |visits| - 1;
      PrefixMisses(limits, visits, n, index, missed);
      StoredCovers(limits, visits[..n], index, missed);
      StoredStep(limits, visits, index);
      if ComparedWith(limits, visits, n) == Some(index) {
        SeenCovers(limits, visits[..n], visits[n].read, index, missed);
        var seen := Seen(limits, visits[..n], visits[n].read);
        OneMoreIsAllowed(On(Overlapped(limits, visits[..n]).comparisons, index), On(seen.comparisons, index),
                         Stored(seen, index), missed);
      }
    }
  }

  lemma {:induction false} SeenCovers(limits: Limits, visits: seq<Visit>, read: nat, index: nat, missed: nat)
    requires MissesAtMost(limits, visits, index, missed)
    ensures var seen := Seen(limits, visits, read);
            On(seen.comparisons, index) <= Allowed(Stored(seen, index), missed)
    decreases |visits|, 1
  {
    if read < |visits| {
      PrefixMisses(limits, visits, read, index, missed);
      StoredCovers(limits, visits[..read], index, missed);
    } else {
      StoredCovers(limits, visits, index, missed);
    }
  }

  /** However requests overlap: while none misses more than `missed` others, the comparisons of a challenge stay bounded. */
  lemma {:induction false} ComparedAtMost(limits: Limits, visits: seq<Visit>, index: nat, missed: nat)
    requires MissesAtMost(limits, visits, index, missed)
    ensures On(Overlapped(limits, visits).comparisons, index) <= Allowed(limits.maxAttempts, missed)
  {
    var h := Overlapped(limits, visits);
    StoredCovers(limits, visits, index, missed);
    LaterChallenges(limits, visits, 0);
    AllowedMonotone(Stored(h, index), limits.maxAttempts, missed);
  }

  /** At every point the stored count is the number of comparisons made. */
  ghost predicate AlwaysCounts(limits: Limits, visits: seq<Visit>, index: nat) {
    forall k :: 0 <= k <= |visits| ==>
                  Stored(Overlapped(limits, visits[..k]), index) == On(Overlapped(limits, visits[..k]).comparisons, index)
  }

  /** The attempt counter is right throughout exactly if no comparison with the challenge misses another. */
  lemma CountsExactly(limits: Limits, visits: seq<Visit>, index: nat)
    ensures AlwaysCounts(limits, visits, index) <==>
            forall k :: 0 <= k < |visits| && ComparedWith(limits, visits, k) == Some(index) ==>
                          Missed(limits, visits, k, index) == 0
  {
    if AlwaysCounts(limits, visits, index) {
      forall k | 0 <= k < |visits| && ComparedWith(limits, visits, k) == Some(index)
        ensures Missed(limits, visits, k, index) == 0
      {
        CountedMissesNone(limits, visits, k, index);
      }
    } else if forall k :: 0 <= k < |visits| && ComparedWith(limits, visits, k) == Some(index) ==>
                            Missed(limits, visits, k, index) == 0 {
      forall k | 0 <= k <= |visits|
        ensures Stored(Overlapped(limits, visits[..k]), index) == On(Overlapped(limits, visits[..k]).comparisons, index)
      {
        MissingNoneCounts(limits, visits, k, index);
      }
    }
  }

  /** Slices of slices: what a visit saw is itself a state the visits passed through. */
  lemma {:induction false} SeenIsPrefix(limits: Limits, visits: seq<Visit>, k: nat, read: nat)
    requires k <= |visits|
    ensures var r := if read < k then read else k;
            Seen(limits, visits[..k], read) == Overlapped(limits, visits[..r])
  {
    if read < k {
      assert visits[..k][..read] == visits[..read];
    }
  }

  lemma {:induction false} StoredStepAt(limits: Limits, visits: seq<Visit>, k: nat, index: nat)
    requires k < |visits|
    ensures var before, after := Overlapped(limits, visits[..k]), Overlapped(limits, visits[..k + 1]);
            if ComparedWith(limits, visits, k) == Some(index) then
              && Stored(after, index) == Stored(Seen(limits, visits[..k], visits[k].read), index) + 1
              && On(after.comparisons, index) == On(before.comparisons, index) + 1
            else
              Stored(after, index) == Stored(before, index)
              && On(after.comparisons, index) == On(before.comparisons, index)
  {
    PrefixVisits(limits, visits, k + 1, k);
    StoredStep(limits, visits[..k + 1], index);
  }

  lemma CountedMissesNone(limits: Limits, visits: seq<Visit>, k: nat, index: nat)
    requires AlwaysCounts(limits, visits, index)
    requires k < |visits| && ComparedWith(limits, visits, k) == Some(index)
    ensures Missed(limits, visits, k, index) == 0
  {
    StoredStepAt(limits, visits, k, index);
    SeenIsPrefix(limits, visits, k, visits[k].read);
    assert Stored(Overlapped(limits, visits[..k + 1]), index)
        == On(Overlapped(limits, visits[..k + 1]).comparisons, index);
  }

  lemma {:induction false} MissingNoneCounts(limits: Limits, visits: seq<Visit>, k: nat, index: nat)
    requires k <= |visits|
    requires forall j :: 0 <= j < |visits| && ComparedWith(limits, visits, j) == Some(index) ==>
                           Missed(limits, visits, j, index) == 0
    ensures Stored(Overlapped(limits, visits[..k]), index) == On(Overlapped(limits, visits[..k]).comparisons, index)
    decreases k
  {
    if k > 0 {
      var j := k - 1;
      var read := visits[j].read;
      MissingNoneCounts(limits, visits, j, index);
      MissingNoneCounts(limits, visits, if read < j then read else j, index);
      SeenIsPrefix(limits, visits, j, read);
      StoredStepAt(limits, visits, j, index);
    }
  }

  /** One code sent, and a verification for each guess, all of which read before any of them commits. */
  function Burst(now: int, secret: CodeHash, guesses: seq<CodeHash>): (visits: seq<Visit>)
    ensures |visits| == |guesses| + 1 && visits[0] == Visit(Send(now, true, secret), 0)
  {
    if guesses == [] then [Visit(Send(now, true, secret), 0)]
    else Burst(now, secret, guesses[..|guesses| - 1]) + [Visit(Verify(now, guesses[|guesses| - 1]), 1)]
  }

  lemma {:induction false} OneSend(limits: Limits, now: int, secret: CodeHash)
    requires limits.maxSendsPerSession > 0
    ensures var h := Overlapped(limits, [Visit(Send(now, true, secret), 0)]);
            h.challenges == [Challenge(secret, now, 0, now + limits.ttl, None)] && h.comparisons == []
  {
    var v := Visit(Send(now, true, secret), 0);
    var c := Challenge(secret, now, 0, now + limits.ttl, None);
    assert [] + [v] == [v] && [] + [Hit(now, limits.window)] == [Hit(now, limits.window)];
    OneMoreVisit(limits, [], v);
    assert Invalidate([], now) + [c] == [c];
  }

  /** A wrong code compared on the strength of an unused challenge. */
  lemma GuessIsCompared(limits: Limits, h: History, seen: seq<Challenge>, r: Request)
    requires r.Verify? && |seen| == |h.challenges| == 1 && limits.maxAttempts > 0
    requires Live(seen[0], r.now) && seen[0].attempts == 0 && seen[0].codeHash != r.codeHash
    ensures var after := Settle(limits, h, seen, r);
            && after.challenges == [h.challenges[0].(attempts := 1)]
            && after.comparisons == h.comparisons + [Comparison(r.now, 0, r.codeHash)]
  {
  }

  /** Overlap defeats the attempt limit: any number of guesses are compared, and the count stays at 1. */
  lemma {:induction false} BurstIsCompared(limits: Limits, now: int, secret: CodeHash, guesses: seq<CodeHash>)
    requires limits.ttl > 0 && limits.maxAttempts > 0 && limits.maxSendsPerSession > 0 && secret !in guesses
    ensures var h := Overlapped(limits, Burst(now, secret, guesses));
            && h.challenges == [Challenge(secret, now, if guesses == [] then 0 else 1, now + limits.ttl, None)]
            && |h.comparisons| == |guesses|
            && forall k :: 0 <= k < |guesses| ==> h.comparisons[k] == Comparison(now, 0, guesses[k])
  {
    var sent := [Visit(Send(now, true, secret), 0)];
    OneSend(limits, now, secret);
    if guesses != [] {
      var n := |guesses| - 1;
      var before := Burst(now, secret, guesses[..n]);
      BurstIsCompared(limits, now, secret, guesses[..n]);
      OneMoreVisit(limits, before, Visit(Verify(now, guesses[n]), 1));
      assert (if 1 < |before| then before[..1] else before) == sent;
      assert guesses[n] in guesses;
      GuessIsCompared(limits, Overlapped(limits, before), Overlapped(limits, sent).challenges, Verify(now, guesses[n]));
    }
  }

  // ---- The guess bound ------------------------------------------------------

  predicate Within(c: Comparison, a: int, b: int, lo: nat, hi: nat) {
    a < c.at <= b && lo <= c.index < hi
  }

  /** Comparisons in (a, b] with a challenge in lo..hi. */
  function Guesses(comparisons: seq<Comparison>, a: int, b: int, lo: nat, hi: nat): nat {
    if comparisons == [] then 0
    else
      Guesses(comparisons[..|comparisons| - 1], a, b, lo, hi)
      + (if Within(comparisons[|comparisons| - 1], a, b, lo, hi) then 1 else 0)
  }

  lemma {:induction false} SplitGuesses(comparisons: seq<Comparison>, a: int, b: int, lo: nat, mid: nat, hi: nat)
    requires lo <= mid <= hi
    ensures Guesses(comparisons, a, b, lo, hi)
         == Guesses(comparisons, a, b, lo, mid) + Guesses(comparisons, a, b, mid, hi)
  {
    if comparisons != [] {
      SplitGuesses(comparisons[..|comparisons| - 1], a, b, lo, mid, hi);
    }
  }

  lemma {:induction false} OneChallengeGuesses(comparisons: seq<Comparison>, a: int, b: int, index: nat)
    ensures Guesses(comparisons, a, b, index, index + 1) <= On(comparisons, index)
  {
    if comparisons != [] {
      OneChallengeGuesses(comparisons[..|comparisons| - 1], a, b, index);
    }
  }

  lemma {:induction false} NoGuesses(comparisons: seq<Comparison>, a: int, b: int, lo: nat)
    ensures Guesses(comparisons, a, b, lo, lo) == 0
  {
    if comparisons != [] {
      NoGuesses(comparisons[..|comparisons| - 1], a, b, lo);
    }
  }

  /** Each challenge in the range contributes at most its attempts. */
  lemma {:induction false} RangeGuesses(comparisons: seq<Comparison>, a: int, b: int, lo: nat, hi: nat, max: nat)
    requires lo <= hi
    requires forall i :: lo <= i < hi ==> On(comparisons, i) <= max
    ensures Guesses(comparisons, a, b, lo, hi) <= (hi - lo) * max
    decreases hi - lo
  {
    if lo == hi {
      NoGuesses(comparisons, a, b, lo);
    } else {
      RangeGuesses(comparisons, a, b, lo, hi - 1, max);
      SplitGuesses(comparisons, a, b, lo, hi - 1, hi);
      OneChallengeGuesses(comparisons, a, b, hi - 1);
      assert (hi - lo) * max == (hi - 1 - lo) * max + max;
    }
  }

  lemma {:induction false} SameGuesses(
    comparisons: seq<Comparison>, a: int, b: int, lo: nat, hi: nat, all: nat)
    requires forall k :: 0 <= k < |comparisons| && a < comparisons[k].at <= b ==> lo <= comparisons[k].index < hi
    requires forall k :: 0 <= k < |comparisons| ==> comparisons[k].index < all
    ensures Guesses(comparisons, a, b, 0, all) == Guesses(comparisons, a, b, lo, hi)
  {
    if comparisons != [] {
      SameGuesses(comparisons[..|comparisons| - 1], a, b, lo, hi, all);
    }
  }

  /** Challenges created up to `t`: with creation times in order, a prefix. */
  function UpTo(challenges: seq<Challenge>, t: int): (n: nat)
    ensures n <= |challenges|
  {
    if challenges == [] then 0
    else if challenges[|challenges| - 1].createdAt <= t then |challenges|
    else UpTo(challenges[..|challenges| - 1], t)
  }

  lemma {:induction false} UpToSplits(challenges: seq<Challenge>, t: int)
    requires forall i, j :: 0 <= i <= j < |challenges| ==> challenges[i].createdAt <= challenges[j].createdAt
    ensures forall i :: 0 <= i < |challenges| ==> (i < UpTo(challenges, t) <==> challenges[i].createdAt <= t)
  {
    if challenges != [] {
      UpToSplits(challenges[..|challenges| - 1], t);
    }
  }

  lemma {:induction false} CreatedBetween(challenges: seq<Challenge>, a: int, b: int)
    requires a <= b
    requires forall i, j :: 0 <= i <= j < |challenges| ==> challenges[i].createdAt <= challenges[j].createdAt
    ensures UpTo(challenges, a) + Created(challenges, a, b) == UpTo(challenges, b)
  {
    if challenges != [] {
      CreatedBetween(challenges[..|challenges| - 1], a, b);
      UpToSplits(challenges, a);
      UpToSplits(challenges, b);
      UpToSplits(challenges[..|challenges| - 1], a);
      UpToSplits(challenges[..|challenges| - 1], b);
    }
  }

  /** Challenges are in creation order, and each comparison falls between its challenge and the next. */
  ghost predicate InPlace(h: History) {
    && (forall i, j :: 0 <= i <= j < |h.challenges| ==> h.challenges[i].createdAt <= h.challenges[j].createdAt)
    && (forall k :: 0 <= k < |h.comparisons| ==> Placed(h.comparisons[k], h.challenges))
  }

  ghost predicate Placed(c: Comparison, challenges: seq<Challenge>) {
    && c.index < |challenges| && challenges[c.index].createdAt <= c.at
    && (forall j :: c.index < j < |challenges| ==> c.at <= challenges[j].createdAt)
  }

  /** In (a, b] only challenges created then, and the one before them, can be guessed at. */
  lemma {:induction false} GuessedChallenges(h: History, a: int, b: int)
    requires InPlace(h) && a <= b
    ensures var before, hi := UpTo(h.challenges, a), UpTo(h.challenges, b);
            var lo := if before == 0 then 0 else before - 1;
            && hi - lo <= Created(h.challenges, a, b) + 1
            && lo <= hi
            && forall k :: 0 <= k < |h.comparisons| && a < h.comparisons[k].at <= b ==>
                             lo <= h.comparisons[k].index < hi
  {
    CreatedBetween(h.challenges, a, b);
    UpToSplits(h.challenges, a);
    UpToSplits(h.challenges, b);
    var before, hi := UpTo(h.challenges, a), UpTo(h.challenges, b);
    forall k | 0 <= k < |h.comparisons| && a < h.comparisons[k].at <= b
      ensures before - 1 <= h.comparisons[k].index < hi
    {
      var c := h.comparisons[k];
      assert Placed(c, h.challenges);
      if c.index + 1 < |h.challenges| {
        assert c.at <= h.challenges[c.index + 1].createdAt;
      }
    }
  }

  /** Sends commit in the order of their clocks; verifications between two sends in any order. */
  ghost predicate InOrder(visits: seq<Visit>) {
    forall i, j :: 0 <= i < j < |visits| && (visits[i].request.Send? || visits[j].request.Send?) ==>
                     visits[i].request.now <= visits[j].request.now
  }

  /** Every comparison is with the challenge that is still the latest, and has missed at most `missed` others. */
  ghost predicate OverlapAtMost(limits: Limits, visits: seq<Visit>, missed: nat) {
    forall k :: 0 <= k < |visits| && ComparedWith(limits, visits, k).Some? ==>
                  var index := ComparedWith(limits, visits, k).value;
                  && index + 1 == |Overlapped(limits, visits[..k]).challenges|
                  && Missed(limits, visits, k, index) <= missed
  }

  lemma PrefixOverlap(limits: Limits, visits: seq<Visit>, n: nat, missed: nat)
    requires InOrder(visits) && OverlapAtMost(limits, visits, missed) && n <= |visits|
    ensures InOrder(visits[..n]) && OverlapAtMost(limits, visits[..n], missed)
  {
    var before := visits[..n];
    forall k | 0 <= k < n && ComparedWith(limits, before, k).Some?
      ensures var index := ComparedWith(limits, before, k).value;
              && index + 1 == |Overlapped(limits, before[..k]).challenges|
              && Missed(limits, before, k, index) <= missed
    {
      PrefixVisits(limits, visits, n, k);
    }
  }

  ghost predicate WindowOk(limits: Limits, h: History) {
    && InPlace(h) && Ordered(h.hits, limits.window)
    && (forall a, b :: Created(h.challenges, a, b) <= Accepted(h.hits, limits.maxSendsPerSession, a, b))
  }

  /** The history lies before the request, as far as the request's place in it matters. */
  ghost predicate Past(h: History, r: Request) {
    && (forall i :: 0 <= i < |h.challenges| ==> h.challenges[i].createdAt <= r.now)
    && (r.Send? ==>
          && (forall k :: 0 <= k < |h.comparisons| ==> h.comparisons[k].at <= r.now)
          && (forall i :: 0 <= i < |h.hits| ==> h.hits[i].at <= r.now))
  }

  lemma SettleKeepsPast(limits: Limits, h: History, seen: seq<Challenge>, r: Request, next: Request)
    requires Past(h, next) && (r.Send? || next.Send? ==> r.now <= next.now)
    ensures Past(Settle(limits, h, seen, r), next)
  {
  }

  lemma {:induction false} EarlierIsPast(limits: Limits, visits: seq<Visit>, next: Request)
    requires forall i :: 0 <= i < |visits| && (visits[i].request.Send? || next.Send?) ==>
                           visits[i].request.now <= next.now
    ensures Past(Overlapped(limits, visits), next)
    decreases |visits|
  {
    if visits != [] {
      var n := |visits| - 1;
      EarlierIsPast(limits, visits[..n], next);
      SettleKeepsPast(limits, Overlapped(limits, visits[..n]),
                      Seen(limits, visits[..n], visits[n].read).challenges, visits[n].request, next);
    }
  }

  lemma SendKeepsWindow(limits: Limits, h: History, r: Request)
    requires r.Send? && WindowOk(limits, h) && Past(h, r)
    ensures WindowOk(limits, Handle(limits, h, r))
  {
    SendKeepsHits(limits, h, r);
    InvalidateKeeps(limits, h.challenges, r.now);
    var after := Handle(limits, h, r);
    forall k | 0 <= k < |after.comparisons| ensures Placed(after.comparisons[k], after.challenges) {
      assert Placed(h.comparisons[k], h.challenges);
    }
  }

  lemma WrittenKeepsCreation(challenges: seq<Challenge>, index: int, attempts: nat, matched: bool, now: int)
    ensures var after := Written(challenges, index, attempts, matched, now);
            && |after| == |challenges|
            && forall i :: 0 <= i < |challenges| ==> after[i].createdAt == challenges[i].createdAt
  {
  }

  lemma CompareKeepsWindow(limits: Limits, h: History, c: Comparison, attempts: nat, matched: bool)
    requires WindowOk(limits, h) && c.index + 1 == |h.challenges| && h.challenges[c.index].createdAt <= c.at
    ensures WindowOk(limits, h.(challenges := Written(h.challenges, c.index, attempts, matched, c.at),
                                comparisons := h.comparisons + [c],
                                passes := if matched then h.passes + [c] else h.passes))
  {
    var written := Written(h.challenges, c.index, attempts, matched, c.at);
    WrittenKeepsCreation(h.challenges, c.index, attempts, matched, c.at);
    forall k | 0 <= k < |h.comparisons + [c]| ensures Placed((h.comparisons + [c])[k], written) {
      assert k < |h.comparisons| ==> Placed(h.comparisons[k], h.challenges);
    }
    forall a, b ensures Created(written, a, b) <= Accepted(h.hits, limits.maxSendsPerSession, a, b) {
      SameCreation(h.challenges, written, a, b);
    }
  }

  lemma SettleKeepsWindow(limits: Limits, h: History, seen: seq<Challenge>, r: Request)
    requires WindowOk(limits, h) && Past(h, r)
    requires Compared(limits, seen, r).Some? ==> Compared(limits, seen, r).value + 1 == |h.challenges|
    ensures WindowOk(limits, Settle(limits, h, seen, r))
  {
    if r.Send? {
      SendKeepsWindow(limits, h, r);
    } else if Compared(limits, seen, r).Some? {
      var c := Comparison(r.now, |seen| - 1, r.codeHash);
      var matched := VerifyOutcome(limits, seen, r.codeHash, r.now).Matched?;
      CompareKeepsWindow(limits, h, c, seen[c.index].attempts + 1, matched);
    }
  }

  lemma {:induction false} OverlapKeepsWindow(limits: Limits, visits: seq<Visit>, missed: nat)
    requires InOrder(visits) && OverlapAtMost(limits, visits, missed)
    ensures WindowOk(limits, Overlapped(limits, visits))
    decreases |visits|
  {
    if visits != [] {
      var n := |visits| - 1;
      var r := visits[n].request;
      PrefixOverlap(limits, visits, n, missed);
      OverlapKeepsWindow(limits, visits[..n], missed);
      EarlierIsPast(limits, visits[..n], r);
      SettleKeepsWindow(limits, Overlapped(limits, visits[..n]),
                        Seen(limits, visits[..n], visits[n].read).challenges, r);
    }
  }

  lemma OverlapMisses(limits: Limits, visits: seq<Visit>, missed: nat, index: nat)
    requires OverlapAtMost(limits, visits, missed)
    ensures MissesAtMost(limits, visits, index, missed)
  {
  }

  lemma {:induction false} EachComparedAtMost(limits: Limits, visits: seq<Visit>, missed: nat)
    requires OverlapAtMost(limits, visits, missed)
    ensures forall i: nat :: On(Overlapped(limits, visits).comparisons, i) <= Allowed(limits.maxAttempts, missed)
  {
    forall i: nat ensures On(Overlapped(limits, visits).comparisons, i) <= Allowed(limits.maxAttempts, missed) {
      OverlapMisses(limits, visits, missed, i);
      ComparedAtMost(limits, visits, i, missed);
    }
  }

  /**
   The guess bound, for requests that overlap: if every comparison is with the challenge
   still the latest and has missed at most `missed` others, then in any window-long
   interval at most `(max sends per session + 1) * max attempts * (missed + 1)` codes
   are compared.
   */
  lemma GuessBound(limits: Limits, visits: seq<Visit>, missed: nat, a: int)
    requires InOrder(visits) && OverlapAtMost(limits, visits, missed)
    ensures var h := Overlapped(limits, visits);
            Guesses(h.comparisons, a, a + limits.window, 0, |h.challenges|)
            <= (limits.maxSendsPerSession + 1) * Allowed(limits.maxAttempts, missed)
  {
    var h := Overlapped(limits, visits);
    OverlapKeepsWindow(limits, visits, missed);
    WindowBound(h.hits, limits.window, limits.maxSendsPerSession, a);
    EachComparedAtMost(limits, visits, missed);
    BoundFromHistory(limits, h, a, Allowed(limits.maxAttempts, missed));
  }

  lemma BoundFromHistory(limits: Limits, h: History, a: int, most: nat)
    requires InPlace(h) && forall i: nat :: On(h.comparisons, i) <= most
    requires Created(h.challenges, a, a + limits.window) <= limits.maxSendsPerSession
    ensures Guesses(h.comparisons, a, a + limits.window, 0, |h.challenges|) <= (limits.maxSendsPerSession + 1) * most
  {
    var b := a + limits.window;
    GuessedChallenges(h, a, b);
    var before, hi := UpTo(h.challenges, a), UpTo(h.challenges, b);
    var lo := if before == 0 then 0 else before - 1;
    assert forall k :: 0 <= k < |h.comparisons| ==> Placed(h.comparisons[k], h.challenges);
    SameGuesses(h.comparisons, a, b, lo, hi, |h.challenges|);
    RangeGuesses(h.comparisons, a, b, lo, hi, most);
    ProductMonotone(hi - lo, limits.maxSendsPerSession + 1, most);
  }

  /** Requests that do not overlap miss nothing: their history is the serial one, and every challenge has its attempts. */
  lemma WithoutOverlap(limits: Limits, visits: seq<Visit>, a: int)
    requires InOrder(visits) && forall k :: 0 <= k < |visits| ==> visits[k].read >= k
    ensures var h := Overlapped(limits, visits);
            && h == Play(limits, Requests(visits))
            && Guesses(h.comparisons, a, a + limits.window, 0, |h.challenges|)
               <= (limits.maxSendsPerSession + 1) * limits.maxAttempts
  {
    CurrentIsSerial(limits, visits);
    GuessBound(limits, visits, 0, a);
  }

  lemma {:induction false} AllGuesses(comparisons: seq<Comparison>, a: int, b: int, all: nat)
    requires forall k :: 0 <= k < |comparisons| ==> Within(comparisons[k], a, b, 0, all)
    ensures Guesses(comparisons, a, b, 0, all) == |comparisons|
  {
    if comparisons != [] {
      AllGuesses(comparisons[..|comparisons| - 1], a, b, all);
    }
  }

  lemma {:induction false} BurstIsInOrder(now: int, secret: CodeHash, guesses: seq<CodeHash>)
    ensures forall k :: 0 <= k < |Burst(now, secret, guesses)| ==> Burst(now, secret, guesses)[k].request.now == now
  {
    if guesses != [] {
      BurstIsInOrder(now, secret, guesses[..|guesses| - 1]);
    }
  }

  /** Without the condition there is no bound: a burst makes as many comparisons in one window as it has guesses. */
  lemma {:induction false} OverlapBreaksTheBound(limits: Limits, now: int, secret: CodeHash, guesses: seq<CodeHash>)
    requires limits.ttl > 0 && limits.maxAttempts > 0 && limits.maxSendsPerSession > 0 && limits.window > 0
    requires secret !in guesses
    ensures var visits := Burst(now, secret, guesses);
            var h := Overlapped(limits, visits);
            InOrder(visits) && Guesses(h.comparisons, now - 1, now - 1 + limits.window, 0, |h.challenges|) == |guesses|
  {
    BurstIsCompared(limits, now, secret, guesses);
    BurstIsInOrder(now, secret, guesses);
    AllGuesses(Overlapped(limits, Burst(now, secret, guesses)).comparisons, now - 1, now - 1 + limits.window, 1);
  }

  lemma ProductMonotone(x: int, y: int, m: nat)
    requires x <= y
    ensures x * m <= y * m
  {
  }
}
