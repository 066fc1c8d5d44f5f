/**
 The rate limiter (app/engines/ratelimit.py).  A pair (expiry, count) per key
 stands in for the log of hits.  Redis and the process memory are two instances
 of the same backend; `downUntil` decides which one a call reaches.
 */
module RateLimit {

  /** The limiter's keys; the session and destination namespaces never collide. */
  datatype Key = Cooldown(session: string) | SendSession(session: string) | SendDestination(hash: string)

  datatype Slot = Slot(expiry: int, count: nat)

  /** One recorded hit and the window it asked for. */
  datatype Hit = Hit(at: int, window: int)

  /** `after` comes while the window opened by `before` is still running. */
  predicate Close(before: Hit, after: Hit) {
    after.at < before.at + before.window
  }

  /** Length of the run of hits that ends the log, each within the window of the one before. */
  function RunLength(log: seq<Hit>): nat {
    var n := |log|;
    if n == 0 then 0
    else if n >= 2 && Close(log[n - 2], log[n - 1]) then 1 + RunLength(log[..n - 1])
    else 1
  }

  function SlotOf(log: seq<Hit>): Slot
    requires log != []
  {
    var last := log[|log| - 1];
    Slot(last.at + last.window, RunLength(log))
  }

  function LogOf(log: map<Key, seq<Hit>>, key: Key): seq<Hit> {
    if key in log then log[key] else []
  }

  /** Every slot stands for the log of its key. */
  ghost predicate Refines(slots: map<Key, Slot>, log: map<Key, seq<Hit>>) {
    && slots.Keys == log.Keys
    && forall key :: key in log ==> log[key] != [] && slots[key] == SlotOf(log[key])
  }

  lemma RefinesHit(slots: map<Key, Slot>, log: map<Key, seq<Hit>>, key: Key, hit: Hit, count: nat)
    requires Refines(slots, log) && count == RunLength(LogOf(log, key) + [hit])
    ensures Refines(slots[key := Slot(hit.at + hit.window, count)], log[key := LogOf(log, key) + [hit]])
  {
  }

  /** What the stored pair says about the run that a new hit joins or starts. */
  lemma {:induction false} RunAfter(log: seq<Hit>, hit: Hit)
    ensures RunLength(log + [hit])
         == if log != [] && SlotOf(log).expiry > hit.at then SlotOf(log).count + 1 else 1
  {
    assert (log + [hit])[..|log|] == log;
  }

  lemma SlotTellsRunning(slots: map<Key, Slot>, log: map<Key, seq<Hit>>, key: Key, now: int)
    requires Refines(slots, log)
    ensures key in slots && slots[key].expiry > now <==> Running(LogOf(log, key), now)
  {
  }

  /** `_mem`, and equally the Redis counters: INCR with EXPIRE, SET NX EX. */
  class Backend {
    var slots: map<Key, Slot>
    ghost var log: map<Key, seq<Hit>>

    ghost predicate Valid()
      reads this
    {
      Refines(slots, log)
    }

    constructor ()
      ensures Valid() && log == map[]
    {
      slots, log := map[], map[];
    }

    /** The counter refines the log: the answer is the length of the run this hit ends. */
    method Count(key: Key, window: int, now: int) returns (count: nat)
      requires Valid()
      modifies this
      ensures Valid()
      ensures log == old(log)[key := LogOf(old(log), key) + [Hit(now, window)]]
      ensures count == RunLength(log[key])
    {
      var slot := if key in slots then slots[key] else Slot(0, 0);
      count := if slot.expiry <= now then 0 else slot.count;
      count := count + 1;
      RunAfter(LogOf(log, key), Hit(now, window));
      RefinesHit(slots, log, key, Hit(now, window), count);
      log := log[key := LogOf(log, key) + [Hit(now, window)]];
      slots := slots[key := Slot(now + window, count)];
    }

    /** True only when no earlier acquisition is still running. */
    method AcquireOnce(key: Key, ttl: int, now: int) returns (acquired: bool)
      requires Valid()
      modifies this
      ensures Valid()
      ensures ttl <= 0 ==> acquired && log == old(log)
      ensures ttl > 0 ==>
                && (acquired <==> !Running(LogOf(old(log), key), now))
                && log == Acquired(old(log), key, ttl, now)
    {
      if ttl <= 0 {
        return true;
      }
      SlotTellsRunning(slots, log, key, now);
      if key in slots && slots[key].expiry > now {
        return false;
      }
      RunAfter(LogOf(log, key), Hit(now, ttl));
      RefinesHit(slots, log, key, Hit(now, ttl), 1);
      log := log[key := LogOf(log, key) + [Hit(now, ttl)]];
      slots := slots[key := Slot(now + ttl, 1)];
      return true;
    }
  }

  predicate Running(log: seq<Hit>, now: int) {
    log != [] && log[|log| - 1].at + log[|log| - 1].window > now
  }

  /** The acquisition is logged unless an earlier one is still running. */
  function Acquired(log: map<Key, seq<Hit>>, key: Key, ttl: int, now: int): map<Key, seq<Hit>> {
    if Running(LogOf(log, key), now) then log else log[key := LogOf(log, key) + [Hit(now, ttl)]]
  }

  const BACKEND_DOWN_GRACE := 30

  /** One process: the shared Redis, its own memory, and how long Redis is considered down. */
  class RateLimiter {
    const redis: Backend
    const memory: Backend
    var downUntil: int

    constructor (redis: Backend, memory: Backend)
      ensures this.redis == redis && this.memory == memory && downUntil == 0
    {
      this.redis := redis;
      this.memory := memory;
      downUntil := 0;
    }

    /**
     `counted` is false when the call to Redis fails before the increment,
     `answered` when it fails before the reply: a lost reply still counts there.
     */
    method RecordHit(key: Key, window: int, now: int, counted: bool, answered: bool) returns (count: nat)
      requires redis != memory && redis.Valid() && memory.Valid()
      modifies this`downUntil, redis, memory
      ensures redis.Valid() && memory.Valid()
      ensures var tried := old(downUntil) <= now;
              var hit := Hit(now, window);
              && redis.log == (if tried && counted then old(redis.log)[key := LogOf(old(redis.log), key) + [hit]]
                               else old(redis.log))
              && memory.log == (if tried && counted && answered then old(memory.log)
                                else old(memory.log)[key := LogOf(old(memory.log), key) + [hit]])
              && count == RunLength(if tried && counted && answered then redis.log[key] else memory.log[key])
              && downUntil == if tried && !(counted && answered) then now + BACKEND_DOWN_GRACE else old(downUntil)
    {
      if !(now < downUntil) {
        if counted {
          count := redis.Count(key, window, now);
          if answered {
            return;
          }
        }
        downUntil := now + BACKEND_DOWN_GRACE;
      }
      count := memory.Count(key, window, now);
    }

    /** `acquire_once` with the same failover; a lost reply may leave the key set in Redis. */
    method Acquire(key: Key, ttl: int, now: int, stored: bool, answered: bool) returns (acquired: bool)
      requires redis != memory && redis.Valid() && memory.Valid()
      modifies this`downUntil, redis, memory
      ensures redis.Valid() && memory.Valid()
      ensures ttl <= 0 ==> acquired && redis.log == old(redis.log) && memory.log == old(memory.log)
      ensures ttl > 0 ==>
                var tried := old(downUntil) <= now;
                var shared := tried && stored && answered;
                && (acquired <==> !Running(LogOf(if shared then old(redis.log) else old(memory.log), key), now))
                && redis.log == (if tried && stored then Acquired(old(redis.log), key, ttl, now) else old(redis.log))
                && memory.log == (if shared then old(memory.log) else Acquired(old(memory.log), key, ttl, now))
                && downUntil == if tried && !(stored && answered) then now + BACKEND_DOWN_GRACE else old(downUntil)
    {
      if ttl <= 0 {
        return true;
      }
      if !(now < downUntil) {
        if stored {
          acquired := redis.AcquireOnce(key, ttl, now);
          if answered {
            return;
          }
        }
        downUntil := now + BACKEND_DOWN_GRACE;
      }
      acquired := memory.AcquireOnce(key, ttl, now);
    }
  }

  // ---- What the run length means --------------------------------------------

  /** Hits in time order, all asking for one window. */
  ghost predicate Ordered(log: seq<Hit>, window: int) {
    && (forall i :: 0 <= i < |log| ==> log[i].window == window)
    && (forall i, j :: 0 <= i <= j < |log| ==> log[i].at <= log[j].at)
  }

  /** The last `r` hits follow each other closely, and no longer run does. */
  ghost predicate MaximalRun(log: seq<Hit>, r: nat) {
    && 0 < r <= |log|
    && (forall i :: |log| - r < i < |log| ==> Close(log[i - 1], log[i]))
    && (r < |log| ==> !Close(log[|log| - r - 1], log[|log| - r]))
  }

  lemma {:induction false} RunIsMaximal(log: seq<Hit>)
    requires log != []
    ensures MaximalRun(log, RunLength(log))
    ensures forall r: nat :: MaximalRun(log, r) ==> r == RunLength(log)
  {
    var n := |log|;
    if n >= 2 && Close(log[n - 2], log[n - 1]) {
      RunIsMaximal(log[..n - 1]);
      forall r: nat | MaximalRun(log, r) ensures r == RunLength(log) {
        assert r != 1;
        assert MaximalRun(log[..n - 1], r - 1);
      }
    }
  }

  function CountAfter(log: seq<Hit>, a: int): nat {
    if log == [] then 0
    else CountAfter(log[..|log| - 1], a) + (if log[|log| - 1].at > a then 1 else 0)
  }

  lemma {:induction false} CountAfterShrinks(log: seq<Hit>, a: int, b: int)
    requires a <= b
    ensures CountAfter(log, b) <= CountAfter(log, a)
  {
    if log != [] {
      CountAfterShrinks(log[..|log| - 1], a, b);
    }
  }

  lemma {:induction false} NoneAfter(log: seq<Hit>, a: int)
    requires forall i :: 0 <= i < |log| ==> log[i].at <= a
    ensures CountAfter(log, a) == 0
  {
    if log != [] {
      NoneAfter(log[..|log| - 1], a);
    }
  }

  /** The answer is at least the number of hits in the window that ends now. */
  lemma {:induction false} RunCoversWindow(log: seq<Hit>, window: int)
    requires Ordered(log, window) && log != []
    ensures RunLength(log) >= CountAfter(log, log[|log| - 1].at - window)
  {
    var n := |log|;
    var a := log[n - 1].at - window;
    if n >= 2 {
      if Close(log[n - 2], log[n - 1]) {
        RunCoversWindow(log[..n - 1], window);
        CountAfterShrinks(log[..n - 1], log[n - 2].at - window, a);
      } else {
        NoneAfter(log[..n - 1], a);
      }
    } else {
      assert log[..0] == [];
    }
  }

  // ---- How many calls get through -------------------------------------------

  /** Calls of the log, timed in (a, b], whose answer did not exceed `max`. */
  function Accepted(log: seq<Hit>, max: nat, a: int, b: int): nat {
    if log == [] then 0
    else
      var last := log[|log| - 1];
      Accepted(log[..|log| - 1], max, a, b)
      + (if RunLength(log) <= max && a < last.at <= b then 1 else 0)
  }

  lemma {:induction false} AcceptedAreHits(log: seq<Hit>, max: nat, a: int, b: int)
    ensures Accepted(log, max, a, b) <= CountAfter(log, a)
  {
    if log != [] {
      AcceptedAreHits(log[..|log| - 1], max, a, b);
    }
  }

  /** In any window-long interval one backend accepts at most `max` calls. */
  lemma {:induction false} WindowBound(log: seq<Hit>, window: int, max: nat, a: int)
    requires Ordered(log, window)
    ensures Accepted(log, max, a, a + window) <= max
  {
    if log != [] {
      var n := |log| - 1;
      WindowBound(log[..n], window, max, a);
      if RunLength(log) <= max && a < log[n].at <= a + window {
        RunCoversWindow(log, window);
        AcceptedAreHits(log, max, a, a + window);
        CountAfterShrinks(log, log[n].at - window, a);
      }
    }
  }

  /** A call as one of several backends counted it; a lost reply is counted but not answered. */
  datatype Call = Call(hit: Hit, backend: nat, answered: bool)

  function SeenBy(calls: seq<Call>, backend: nat): seq<Hit> {
    if calls == [] then []
    else
      var last := calls[|calls| - 1];
      SeenBy(calls[..|calls| - 1], backend) + (if last.backend == backend then [last.hit] else [])
  }

  predicate Through(calls: seq<Call>, max: nat, a: int, b: int)
    requires calls != []
  {
    var last := calls[|calls| - 1];
    last.answered && RunLength(SeenBy(calls, last.backend)) <= max && a < last.hit.at <= b
  }

  /** Accepted calls in (a, b], over all backends together. */
  function Total(calls: seq<Call>, max: nat, a: int, b: int): nat {
    if calls == [] then 0
    else Total(calls[..|calls| - 1], max, a, b) + (if Through(calls, max, a, b) then 1 else 0)
  }

  /** Those of the first `k` backends only. */
  function TotalOf(calls: seq<Call>, max: nat, a: int, b: int, k: nat): nat {
    if calls == [] then 0
    else
      TotalOf(calls[..|calls| - 1], max, a, b, k)
      + (if Through(calls, max, a, b) && calls[|calls| - 1].backend < k then 1 else 0)
  }

  lemma {:induction false} TotalIsTotalOf(calls: seq<Call>, max: nat, a: int, b: int, k: nat)
    requires forall i :: 0 <= i < |calls| ==> calls[i].backend < k
    ensures Total(calls, max, a, b) == TotalOf(calls, max, a, b, k)
  {
    if calls != [] {
      TotalIsTotalOf(calls[..|calls| - 1], max, a, b, k);
    }
  }

  /** Adding one backend adds at most what it accepted on its own log. */
  lemma {:induction false} OneMoreBackend(calls: seq<Call>, max: nat, a: int, b: int, k: nat)
    ensures TotalOf(calls, max, a, b, k + 1) <= TotalOf(calls, max, a, b, k) + Accepted(SeenBy(calls, k), max, a, b)
  {
    if calls != [] {
      var n := |calls| - 1;
      OneMoreBackend(calls[..n], max, a, b, k);
      if calls[n].backend == k {
        assert SeenBy(calls, k)[..|SeenBy(calls, k)| - 1] == SeenBy(calls[..n], k);
      } else {
        assert SeenBy(calls, k) == SeenBy(calls[..n], k);
      }
    }
  }

  ghost predicate CallsOrdered(calls: seq<Call>, window: int) {
    && (forall i :: 0 <= i < |calls| ==> calls[i].hit.window == window)
    && (forall i, j :: 0 <= i <= j < |calls| ==> calls[i].hit.at <= calls[j].hit.at)
  }

  lemma {:induction false} SeenIsOrdered(calls: seq<Call>, window: int, k: nat)
    requires CallsOrdered(calls, window)
    ensures Ordered(SeenBy(calls, k), window)
    ensures forall h :: h in SeenBy(calls, k) ==> exists i :: 0 <= i < |calls| && calls[i].hit == h
  {
    if calls != [] {
      var n := |calls| - 1;
      SeenIsOrdered(calls[..n], window, k);
      var seen := SeenBy(calls[..n], k);
      forall i | 0 <= i < |seen| ensures seen[i].at <= calls[n].hit.at {
        assert seen[i] in seen;
      }
    }
  }

  lemma LastBackend(calls: seq<Call>, window: int, max: nat, a: int, k: nat)
    requires CallsOrdered(calls, window)
    ensures TotalOf(calls, max, a, a + window, k + 1) <= TotalOf(calls, max, a, a + window, k) + max
  {
    OneMoreBackend(calls, max, a, a + window, k);
    SeenIsOrdered(calls, window, k);
    WindowBound(SeenBy(calls, k), window, max, a);
  }

  lemma {:induction false} BackendsBound(calls: seq<Call>, window: int, max: nat, a: int, k: nat)
    requires CallsOrdered(calls, window)
    ensures TotalOf(calls, max, a, a + window, k) <= k * max
  {
    if k == 0 {
      NoBackend(calls, max, a, a + window);
    } else {
      BackendsBound(calls, window, max, a, k - 1);
      LastBackend(calls, window, max, a, k - 1);
      assert k * max == (k - 1) * max + max;
    }
  }

  lemma {:induction false} NoBackend(calls: seq<Call>, max: nat, a: int, b: int)
    ensures TotalOf(calls, max, a, b, 0) == 0
  {
    if calls != [] {
      NoBackend(calls[..|calls| - 1], max, a, b);
    }
  }

  /**
   Redis and `processes` process memories, switched between in any way: at most
   `(processes + 1) * max` calls get through in any window-long interval.
   */
  lemma FailoverBound(calls: seq<Call>, window: int, max: nat, a: int, processes: nat)
    requires CallsOrdered(calls, window)
    requires forall i :: 0 <= i < |calls| ==> calls[i].backend <= processes
    ensures Total(calls, max, a, a + window) <= (processes + 1) * max
  {
    TotalIsTotalOf(calls, max, a, a + window, processes + 1);
    BackendsBound(calls, window, max, a, processes + 1);
  }

  // ---- The calls that a deployment makes ------------------------------------

  lemma {:induction false} SeenAppend(calls: seq<Call>, call: Call, backend: nat)
    ensures SeenBy(calls + [call], backend) == SeenBy(calls, backend) + (if call.backend == backend then [call.hit] else [])
  {
    assert (calls + [call])[..|calls|] == calls;
  }

  /** Each backend has seen what its log holds: Redis is number 0, process `p` number `p + 1`. */
  ghost predicate Agrees(calls: seq<Call>, redis: seq<Hit>, memories: seq<seq<Hit>>) {
    && SeenBy(calls, 0) == redis
    && (forall p :: 0 <= p < |memories| ==> SeenBy(calls, p + 1) == memories[p])
    && (forall i :: 0 <= i < |calls| ==> calls[i].backend <= |memories|)
  }

  lemma AgreesOnRedis(calls: seq<Call>, redis: seq<Hit>, memories: seq<seq<Hit>>, hit: Hit, answered: bool)
    requires Agrees(calls, redis, memories)
    ensures Agrees(calls + [Call(hit, 0, answered)], redis + [hit], memories)
  {
    SeenAppend(calls, Call(hit, 0, answered), 0);
    forall p | 0 <= p < |memories| ensures SeenBy(calls + [Call(hit, 0, answered)], p + 1) == memories[p] {
      SeenAppend(calls, Call(hit, 0, answered), p + 1);
    }
  }

  lemma AgreesInMemory(calls: seq<Call>, redis: seq<Hit>, memories: seq<seq<Hit>>, hit: Hit, p: nat)
    requires Agrees(calls, redis, memories) && p < |memories|
    ensures Agrees(calls + [Call(hit, p + 1, true)], redis, memories[p := memories[p] + [hit]])
  {
    var call := Call(hit, p + 1, true);
    SeenAppend(calls, call, 0);
    var after := memories[p := memories[p] + [hit]];
    forall q | 0 <= q < |after| ensures SeenBy(calls + [call], q + 1) == after[q] {
      SeenAppend(calls, call, q + 1);
    }
  }

  /** A call that reached Redis without an answer is counted there and then in the process. */
  function CallsAfter(calls: seq<Call>, hit: Hit, p: nat, reached: bool, answered: bool): seq<Call> {
    if reached && answered then calls + [Call(hit, 0, true)]
    else if reached then calls + [Call(hit, 0, false)] + [Call(hit, p + 1, true)]
    else calls + [Call(hit, p + 1, true)]
  }

  lemma {:induction false} CallAgrees(
    calls: seq<Call>, redis: seq<Hit>, memories: seq<seq<Hit>>, hit: Hit, p: nat, reached: bool, answered: bool,
    after: seq<Call>, redisAfter: seq<Hit>, memoriesAfter: seq<seq<Hit>>)
    requires Agrees(calls, redis, memories) && p < |memories|
    requires after == CallsAfter(calls, hit, p, reached, answered)
    requires redisAfter == if reached then redis + [hit] else redis
    requires memoriesAfter == if reached && answered then memories else memories[p := memories[p] + [hit]]
    ensures Agrees(after, redisAfter, memoriesAfter)
    ensures after != []
    ensures SeenBy(after, after[|after| - 1].backend) == if reached && answered then redisAfter else memoriesAfter[p]
  {
    if reached {
      AgreesOnRedis(calls, redis, memories, hit, answered);
      if !answered {
        AgreesInMemory(calls + [Call(hit, 0, false)], redis + [hit], memories, hit, p);
      }
    } else {
      AgreesInMemory(calls, redis, memories, hit, p);
    }
  }

  /** All processes of a deployment, sharing one Redis; `calls` records one key's calls in order. */
  class Fleet {
    const key: Key
    const redis: Backend
    const limiters: seq<RateLimiter>
    const memories: seq<Backend>
    ghost var calls: seq<Call>

    /** `memories` lists the process memories, all different and none of them Redis. */
    ghost predicate Wired() {
      && |memories| == |limiters|
      && (forall p :: 0 <= p < |limiters| ==>
                        limiters[p].redis == redis && limiters[p].memory == memories[p] != redis)
      && (forall p, q :: 0 <= p < q < |memories| ==> memories[p] != memories[q])
    }

    ghost function Logs(): (logs: seq<seq<Hit>>)
      reads memories
      ensures |logs| == |memories| && forall p :: 0 <= p < |memories| ==> logs[p] == LogOf(memories[p].log, key)
    {
      seq(|memories|, p requires 0 <= p < |memories| reads memories => LogOf(memories[p].log, key))
    }

    ghost predicate Working()
      reads redis, memories
    {
      Wired() && redis.Valid() && forall p :: 0 <= p < |memories| ==> memories[p].Valid()
    }

    ghost predicate Valid()
      reads this, redis, memories
    {
      Working() && Agrees(calls, LogOf(redis.log, key), Logs())
    }

    constructor (key: Key, redis: Backend, limiters: seq<RateLimiter>, memories: seq<Backend>)
      requires redis.Valid() && LogOf(redis.log, key) == [] && |memories| == |limiters|
      requires forall p :: 0 <= p < |limiters| ==>
                             limiters[p].redis == redis && limiters[p].memory == memories[p] != redis
      requires forall p :: 0 <= p < |memories| ==> memories[p].Valid() && LogOf(memories[p].log, key) == []
      requires forall p, q :: 0 <= p < q < |memories| ==> memories[p] != memories[q]
      ensures Valid() && calls == [] && this.key == key && this.redis == redis
      ensures this.limiters == limiters && this.memories == memories
    {
      this.key := key;
      this.redis := redis;
      this.limiters := limiters;
      this.memories := memories;
      calls := [];
    }

    /** Which log the call enters, and what it answers. */
    method RecordAt(p: nat, window: int, now: int, counted: bool, answered: bool) returns (count: nat)
      requires Working() && p < |memories|
      modifies redis, limiters[p], memories[p]
      ensures Working()
      ensures var reached := old(limiters[p].downUntil) <= now && counted;
              var hit := Hit(now, window);
              && LogOf(redis.log, key)
                 == (if reached then LogOf(old(redis.log), key) + [hit] else LogOf(old(redis.log), key))
              && Logs() == (if reached && answered then old(Logs()) else old(Logs())[p := old(Logs())[p] + [hit]])
              && count == RunLength(if reached && answered then LogOf(redis.log, key) else Logs()[p])
    {
      ghost var logs := Logs();
      count := limiters[p].RecordHit(key, window, now, counted, answered);
      ghost var after := Logs();
      assert forall q :: 0 <= q < |memories| && q != p ==> memories[q].Valid() && after[q] == logs[q];
      assert after[p] == LogOf(memories[p].log, key);
      assert after == logs[p := after[p]];
    }

    /**
     One call through process `p`.  It is appended to `calls`, after a lost attempt on
     Redis if there was one, and its answer is the run length on the log that answered.
     */
    method RecordCall(p: nat, window: int, now: int, counted: bool, answered: bool) returns (count: nat)
      requires Valid() && p < |memories|
      modifies this, redis, limiters[p], memories[p]
      ensures Valid()
      ensures calls == CallsAfter(old(calls), Hit(now, window), p, old(limiters[p].downUntil) <= now && counted, answered)
      ensures count == RunLength(SeenBy(calls, calls[|calls| - 1].backend))
    {
      ghost var reached := limiters[p].downUntil <= now && counted;
      ghost var before, redisBefore, logsBefore := calls, LogOf(redis.log, key), Logs();
      calls := CallsAfter(before, Hit(now, window), p, reached, answered);
      count := RecordAt(p, window, now, counted, answered);
      CallAgrees(before, redisBefore, logsBefore, Hit(now, window), p, reached, answered,
                 calls, LogOf(redis.log, key), Logs());
    }

    /** However the processes fail over, at most `(processes + 1) * max` of their calls get through in a window. */
    lemma Bound(window: int, max: nat, a: int)
      requires Valid() && CallsOrdered(calls, window)
      ensures Total(calls, max, a, a + window) <= (|limiters| + 1) * max
    {
      FailoverBound(calls, window, max, a, |limiters|);
    }
  }

  // ---- Cooldown -------------------------------------------------------------

  /** The acquisitions of one key for a series of attempts. */
  function Acquisitions(attempts: seq<int>, ttl: int): seq<Hit> {
    if attempts == [] then []
    else
      var before := Acquisitions(attempts[..|attempts| - 1], ttl);
      var now := attempts[|attempts| - 1];
      if Running(before, now) then before else before + [Hit(now, ttl)]
  }

  ghost predicate Apart(log: seq<Hit>, ttl: nat) {
    && (forall i :: 0 <= i < |log| ==> log[i].window == ttl)
    && (forall i, j :: 0 <= i < j < |log| ==> log[i].at + ttl <= log[j].at)
  }

  /** Any two successful acquisitions are at least `ttl` apart. */
  lemma {:induction false} AcquisitionsAreApart(attempts: seq<int>, ttl: nat)
    ensures Apart(Acquisitions(attempts, ttl), ttl)
  {
    if attempts != [] {
      var before := Acquisitions(attempts[..|attempts| - 1], ttl);
      var now := attempts[|attempts| - 1];
      AcquisitionsAreApart(attempts[..|attempts| - 1], ttl);
      if !Running(before, now) {
        forall i | 0 <= i < |before| ensures before[i].at + ttl <= now {
          assert before[|before| - 1].window == ttl;
          assert i < |before| - 1 ==> before[i].at + ttl <= before[|before| - 1].at;
        }
      }
    }
  }
}
