/** The sliding-window limiter of src/middlewares/rateLimiter.ts, in memory and through Redis. */
module RateLimiter {
  import opened Common

  datatype Hit = Hit(key: string, time: int)

  const MEMORY_SWEEP_THRESHOLD := 10_000
  const MAX_UNAVAILABLE_RETRY_AFTER_SEC := 30

  /** `Math.ceil(ms / 1000)`. */
  function CeilSeconds(ms: int): (s: int)
    ensures 1000 * (s - 1) < ms <= 1000 * s
  {
    -((-ms) / 1000)
  }

  function AtMostRetry(ceil: int): (s: int)
    ensures s <= 30 && s <= ceil && (s == ceil || s == 30)
  {
    if ceil < MAX_UNAVAILABLE_RETRY_AFTER_SEC then ceil else MAX_UNAVAILABLE_RETRY_AFTER_SEC
  }

  /** `hits.filter((t) => t > cutoff)`. */
  function After(hits: seq<int>, cutoff: int): (r: seq<int>)
    ensures forall t :: t in r ==> t in hits && t > cutoff
    ensures |r| <= |hits|
  {
    if hits == [] then [] else
      var k := |hits| - 1;
      var init := After(hits[..k], cutoff);
      assert hits == hits[..k] + [hits[k]];
      if hits[k] > cutoff then init + [hits[k]] else init
  }

  /** The times of the hits of `key`, oldest first. */
  ghost function TimesOf(log: seq<Hit>, key: string): (r: seq<int>)
    ensures forall t :: t in r ==> Hit(key, t) in log
  {
    if log == [] then [] else
      var k := |log| - 1;
      var init := TimesOf(log[..k], key);
      assert log == log[..k] + [log[k]];
      if log[k].key == key then init + [log[k].time] else init
  }

  /** The hits of `key` after `cutoff` in a complete log: the definition both stores are held to. */
  ghost function Live(log: seq<Hit>, key: string, cutoff: int): seq<int> {
    After(TimesOf(log, key), cutoff)
  }

  /** The live hits are those of the key strictly after the cutoff, in order of arrival. */
  lemma {:induction false} LiveInOrder(log: seq<Hit>, key: string, cutoff: int) returns (pos: seq<nat>, hits: seq<Hit>)
    ensures Selects(log, pos, hits)
    ensures forall i :: 0 <= i < |log| ==> (i in pos <==> log[i].key == key && log[i].time > cutoff)
    ensures |hits| == |Live(log, key, cutoff)|
    ensures forall k :: 0 <= k < |hits| ==> hits[k].time == Live(log, key, cutoff)[k]
  {
    if log == [] {
      pos, hits := [], [];
    } else {
      hide Live, Selects;
      var init, last := log[..|log| - 1], log[|log| - 1];
      pos, hits := LiveInOrder(init, key, cutoff);
      assert log == init + [last];
      LiveAppend(init, last, key, cutoff);
      pos := SelectsNext(log, pos, hits, last.key == key && last.time > cutoff);
      hits := hits + if last.key == key && last.time > cutoff then [last] else [];
    }
  }

  lemma {:induction false} AfterAfter(hits: seq<int>, early: int, late: int)
    requires early <= late
    ensures After(After(hits, early), late) == After(hits, late)
  {
    if hits != [] {
      var k := |hits| - 1;
      var init := After(hits[..k], early);
      AfterAfter(hits[..k], early, late);
      if hits[k] > early {
        assert (init + [hits[k]])[..|init|] == init;
      }
    }
  }

  lemma {:induction false} AllStale(hits: seq<int>, cutoff: int)
    requires forall i :: 0 <= i < |hits| ==> hits[i] <= cutoff
    ensures After(hits, cutoff) == []
  {
    if hits != [] {
      AllStale(hits[..|hits| - 1], cutoff);
    }
  }

  lemma LaterCutoff(a: seq<int>, b: seq<int>, early: int, late: int)
    requires After(a, early) == After(b, early) && early <= late
    ensures After(a, late) == After(b, late)
  {
    AfterAfter(a, early, late);
    AfterAfter(b, early, late);
  }

  lemma AfterAppend(hits: seq<int>, t: int, cutoff: int)
    ensures After(hits + [t], cutoff) == After(hits, cutoff) + if t > cutoff then [t] else []
  {
    assert (hits + [t])[..|hits|] == hits;
  }

  lemma LiveAppend(log: seq<Hit>, h: Hit, key: string, cutoff: int)
    ensures Live(log + [h], key, cutoff)
         == Live(log, key, cutoff) + if h.key == key && h.time > cutoff then [h.time] else []
  {
    assert (log + [h])[..|log|] == log;
    AfterAppend(TimesOf(log, key), h.time, cutoff);
  }

  lemma {:induction false} LiveAntitone(log: seq<Hit>, key: string, early: int, late: int)
    requires early <= late
    ensures |Live(log, key, late)| <= |Live(log, key, early)|
  {
    AfterAfter(TimesOf(log, key), early, late);
  }

  ghost predicate Ordered(log: seq<Hit>) {
    forall i, j :: 0 <= i <= j < |log| ==> log[i].time <= log[j].time
  }

  ghost predicate NotBefore(log: seq<Hit>, now: int) {
    forall h :: h in log ==> h.time <= now
  }

  // ---- The in-memory store ----

  type MemoryStore = map<string, seq<int>>

  function Stored(store: MemoryStore, key: string): seq<int> {
    if key in store then store[key] else []
  }

  ghost predicate NonDecreasing(s: seq<int>) {
    forall i, j :: 0 <= i <= j < |s| ==> s[i] <= s[j]
  }

  /** From `cutoff` on, the store answers as the complete log would. */
  ghost predicate StoreAgrees(store: MemoryStore, log: seq<Hit>, cutoff: int) {
    && (forall k :: k in store ==> store[k] != [] && NonDecreasing(store[k]))
    && (forall k, t :: k in store && t in store[k] ==> Hit(k, t) in log)
    && forall k :: After(Stored(store, k), cutoff) == Live(log, k, cutoff)
  }

  lemma StoreAgreesLater(store: MemoryStore, log: seq<Hit>, early: int, late: int)
    requires StoreAgrees(store, log, early) && early <= late
    ensures StoreAgrees(store, log, late)
  {
    forall k ensures After(Stored(store, k), late) == Live(log, k, late) {
      LaterCutoff(Stored(store, k), TimesOf(log, k), early, late);
    }
  }

  predicate Filled(store: MemoryStore) {
    forall k :: k in store ==> store[k] != []
  }

  /** The keys whose newest hit is after `cutoff`. */
  function Swept(store: MemoryStore, cutoff: int): MemoryStore
    requires Filled(store)
  {
    map k | k in store && store[k][|store[k]| - 1] > cutoff :: store[k]
  }

  /** Sweeping the keys whose newest hit is stale loses nothing the log still counts. */
  lemma SweepAgrees(store: MemoryStore, log: seq<Hit>, cutoff: int)
    requires StoreAgrees(store, log, cutoff)
    ensures Filled(store) && StoreAgrees(Swept(store, cutoff), log, cutoff)
  {
    forall k | k in store && store[k][|store[k]| - 1] <= cutoff ensures After(store[k], cutoff) == [] {
      AllStale(store[k], cutoff);
    }
  }

  /** Filtering one key's hits and appending the new one keeps the agreement. */
  lemma PushAgrees(store: MemoryStore, log: seq<Hit>, cutoff: int, key: string, now: int)
    requires StoreAgrees(store, log, cutoff) && NotBefore(log, now)
    ensures StoreAgrees(store[key := After(Stored(store, key), cutoff) + [now]], log + [Hit(key, now)], cutoff)
  {
    hide Live;
    var kept := After(Stored(store, key), cutoff);
    var store' := store[key := kept + [now]];
    var log' := log + [Hit(key, now)];
    AfterNonDecreasing(Stored(store, key), cutoff);
    forall i, j | 0 <= i <= j < |kept + [now]| ensures (kept + [now])[i] <= (kept + [now])[j] {
      assert i < |kept| ==> kept[i] in kept && Hit(key, kept[i]) in log;
    }
    forall k ensures After(Stored(store', k), cutoff) == Live(log', k, cutoff) {
      LiveAppend(log, Hit(key, now), k, cutoff);
      if k == key {
        AfterAppend(kept, now, cutoff);
        AfterAfter(Stored(store, key), cutoff, cutoff);
      }
    }
  }

  lemma {:induction false} AfterNonDecreasing(hits: seq<int>, cutoff: int)
    requires NonDecreasing(hits)
    ensures NonDecreasing(After(hits, cutoff))
  {
    if hits != [] {
      var k := |hits| - 1;
      AfterNonDecreasing(hits[..k], cutoff);
      var init, r := After(hits[..k], cutoff), After(hits, cutoff);
      forall i, j | 0 <= i <= j < |r| ensures r[i] <= r[j] {
        if j == |init| && i < j {
          assert init[i] in hits[..k];
        }
      }
    }
  }

  // ---- The Redis sorted sets ----

  /** Scores of a sorted set (members are distinct, so one score per member) and its expiry time. */
  datatype ZSet = ZSet(scores: seq<int>, expireAt: int)
  type ZSets = map<string, ZSet>

  /** What a command at time `now` finds under `key`; a set at or past its expiry is gone. */
  function ScoresAt(sets: ZSets, key: string, now: int): seq<int> {
    if key in sets && now < sets[key].expireAt then sets[key].scores else []
  }

  /** ZREMRANGEBYSCORE key lo hi. */
  function RemoveRange(scores: seq<int>, lo: int, hi: int): seq<int> {
    if scores == [] then [] else
      var k := |scores| - 1;
      var init := RemoveRange(scores[..k], lo, hi);
      if lo <= scores[k] <= hi then init else init + [scores[k]]
  }

  lemma {:induction false} RemoveRangeIsAfter(scores: seq<int>, hi: int)
    requires forall i :: 0 <= i < |scores| ==> scores[i] >= 0
    ensures RemoveRange(scores, 0, hi) == After(scores, hi)
  {
    if scores != [] {
      RemoveRangeIsAfter(scores[..|scores| - 1], hi);
    }
  }

  /** From `cutoff` on, the sorted sets answer as the complete log would; no live hit can expire. */
  ghost predicate SetsAgree(sets: ZSets, log: seq<Hit>, windowMs: int, cutoff: int) {
    && (forall k, t :: k in sets && t in sets[k].scores ==> t >= 0 && t + windowMs <= sets[k].expireAt)
    && (forall k :: k in sets ==> After(sets[k].scores, cutoff) == Live(log, k, cutoff))
    && forall k :: k !in sets ==> Live(log, k, cutoff) == []
  }

  lemma SetsAgreeLater(sets: ZSets, log: seq<Hit>, windowMs: int, early: int, late: int)
    requires SetsAgree(sets, log, windowMs, early) && early <= late
    ensures SetsAgree(sets, log, windowMs, late)
  {
    forall k | k in sets ensures After(sets[k].scores, late) == Live(log, k, late) {
      LaterCutoff(sets[k].scores, TimesOf(log, k), early, late);
    }
    forall k | k !in sets ensures Live(log, k, late) == [] {
      LaterCutoff([], TimesOf(log, k), early, late);
    }
  }

  /** The expiry never drops a hit that still counts. */
  lemma ExpiryKeepsLiveHits(sets: ZSets, log: seq<Hit>, windowMs: int, key: string, now: int)
    requires SetsAgree(sets, log, windowMs, now - windowMs)
    ensures After(ScoresAt(sets, key, now), now - windowMs) == Live(log, key, now - windowMs)
  {
    if key in sets && now >= sets[key].expireAt {
      var scores := sets[key].scores;
      forall i | 0 <= i < |scores| ensures scores[i] <= now - windowMs {
        assert scores[i] in scores;
      }
      AllStale(scores, now - windowMs);
    }
  }

  lemma AddAgrees(sets: ZSets, log: seq<Hit>, windowMs: int, key: string, now: int)
    requires SetsAgree(sets, log, windowMs, now - windowMs) && NotBefore(log, now) && now >= 0
    requires forall k, t :: k in sets && t in sets[k].scores ==> Hit(k, t) in log
    ensures
      var kept := After(ScoresAt(sets, key, now), now - windowMs);
      var sets' := sets[key := ZSet(kept + [now], now + 1000 * CeilSeconds(windowMs))];
      && SetsAgree(sets', log + [Hit(key, now)], windowMs, now - windowMs)
      && forall k, t :: k in sets' && t in sets'[k].scores ==> Hit(k, t) in log + [Hit(key, now)]
  {
    hide After, Live;
    var cutoff := now - windowMs;
    var kept := After(ScoresAt(sets, key, now), cutoff);
    assert forall t :: t in kept ==> t in ScoresAt(sets, key, now);
    forall k ensures After(if k == key then kept + [now] else if k in sets then sets[k].scores else [], cutoff)
                  == Live(log + [Hit(key, now)], k, cutoff)
    {
      LiveAfterAdd(sets, log, windowMs, key, now, k);
    }
  }

  lemma LiveAfterAdd(sets: ZSets, log: seq<Hit>, windowMs: int, key: string, now: int, k: string)
    requires SetsAgree(sets, log, windowMs, now - windowMs)
    ensures
      var cutoff := now - windowMs;
      var scores := if k == key then After(ScoresAt(sets, key, now), cutoff) + [now] else if k in sets then sets[k].scores else [];
      After(scores, cutoff) == Live(log + [Hit(key, now)], k, cutoff)
  {
    hide Live, After;
    var cutoff := now - windowMs;
    LiveAppend(log, Hit(key, now), k, cutoff);
    if k == key {
      ExpiryKeepsLiveHits(sets, log, windowMs, key, now);
      AfterAppend(After(ScoresAt(sets, key, now), cutoff), now, cutoff);
      AfterAfter(ScoresAt(sets, key, now), cutoff, cutoff);
    }
  }

  class RedisStore {
    var sets: ZSets
    /** Every pipeline that ran. */
    ghost var seen: seq<Hit>

    constructor ()
      ensures sets == map[] && seen == [] && forall w :: Valid(w)
    {
      sets, seen := map[], [];
    }

    /** For limiters with window `windowMs`. */
    ghost predicate Valid(windowMs: int)
      reads this
    {
      && Ordered(seen)
      && (forall k, t :: k in sets && t in sets[k].scores ==> Hit(k, t) in seen)
      && if seen == [] then sets == map[] else SetsAgree(sets, seen, windowMs, seen[|seen| - 1].time - windowMs)
    }

    lemma AgreesNow(windowMs: int, now: int)
      requires Valid(windowMs) && NotBefore(seen, now)
      ensures SetsAgree(sets, seen, windowMs, now - windowMs)
      ensures Ordered(seen) && forall k, t :: k in sets && t in sets[k].scores ==> Hit(k, t) in seen
    {
      hide SetsAgree;
      if seen != [] {
        SetsAgreeLater(sets, seen, windowMs, seen[|seen| - 1].time - windowMs, now - windowMs);
      } else {
        EmptySets(windowMs, now - windowMs);
      }
    }

    /** The four commands of one request; `count` is the reply of ZCARD. */
    method Pipeline(key: string, now: int, windowMs: int) returns (count: int)
      requires Valid(windowMs) && NotBefore(seen, now) && now >= 0
      modifies this
      ensures Valid(windowMs) && seen == old(seen) + [Hit(key, now)]
      ensures count == 1 + |Live(old(seen), key, now - windowMs)|
      ensures sets == old(sets)[key := ZSet(Live(old(seen), key, now - windowMs) + [now], now + 1000 * CeilSeconds(windowMs))]
    {
      hide Live, SetsAgree;
      AgreesNow(windowMs, now);
      ExpiryKeepsLiveHits(sets, seen, windowMs, key, now);
      AddAgrees(sets, seen, windowMs, key, now);
      ScoresNonNegative(sets, seen, windowMs, key, now);
      RemoveRangeIsAfter(ScoresAt(sets, key, now), now - windowMs);
      var scores := RemoveRange(ScoresAt(sets, key, now), 0, now - windowMs);
      scores := scores + [now];
      count := |scores|;
      sets := sets[key := ZSet(scores, now + 1000 * CeilSeconds(windowMs))];
      seen := seen + [Hit(key, now)];
    }
  }

  lemma EmptySets(windowMs: int, cutoff: int)
    ensures SetsAgree(map[], [], windowMs, cutoff)
  {
  }

  lemma ScoresNonNegative(sets: ZSets, log: seq<Hit>, windowMs: int, key: string, now: int)
    requires SetsAgree(sets, log, windowMs, now - windowMs)
    ensures forall i :: 0 <= i < |ScoresAt(sets, key, now)| ==> ScoresAt(sets, key, now)[i] >= 0
  {
    var scores := ScoresAt(sets, key, now);
    forall i | 0 <= i < |scores| ensures scores[i] >= 0 {
      assert scores[i] in scores;
    }
  }

  // ---- The middleware ----

  datatype Mode = FailOpen | FailClosed | MemoryFallback
  datatype RedisStatus =
    | Up
    | Down
    /** The pipeline ran but its reply was lost or unusable. */
    | ReplyLost

  datatype Verdict =
    | Admitted
    | TooManyRequests(retryAfterSec: int)
    | ServiceUnavailable(retryAfterSec: int)

  class Limiter {
    const windowMs: int
    const max: int
    const mode: Mode
    var memoryStore: MemoryStore
    /** Every call of `MemoryCount` so far. */
    ghost var seen: seq<Hit>

    constructor (windowMs: int, max: int, mode: Mode)
      ensures this.windowMs == windowMs && this.max == max && this.mode == mode
      ensures Valid() && seen == []
    {
      this.windowMs, this.max, this.mode := windowMs, max, mode;
      memoryStore, seen := map[], [];
    }

    ghost predicate Valid()
      reads this
    {
      Ordered(seen) && if seen == [] then memoryStore == map[] else
        StoreAgrees(memoryStore, seen, seen[|seen| - 1].time - windowMs)
    }

    method Sweep(now: int)
      requires Filled(memoryStore)
      modifies this`memoryStore
      ensures memoryStore == Swept(old(memoryStore), now - windowMs)
    {
      ghost var before := memoryStore;
      var rest := memoryStore.Keys;
      while rest != {}
        invariant rest <= memoryStore.Keys
        invariant memoryStore == map k | k in before && (k in rest || before[k][|before[k]| - 1] > now - windowMs) :: before[k]
      {
        var k :| k in rest;
        var hits := memoryStore[k];
        if hits[|hits| - 1] <= now - windowMs {
          memoryStore := map k' | k' in memoryStore && k' != k :: memoryStore[k'];
        }
        rest := rest - {k};
      }
    }

    /** Counts the hit at `now` together with the earlier hits of `key` after `now - windowMs`. */
    method MemoryCount(key: string, now: int) returns (count: int)
      requires Valid() && NotBefore(seen, now)
      modifies this`memoryStore, this`seen
      ensures Valid() && seen == old(seen) + [Hit(key, now)]
      ensures count == 1 + |Live(old(seen), key, now - windowMs)|
      ensures windowMs > 0 ==> count == |Live(seen, key, now - windowMs)|
      ensures Filled(old(memoryStore)) && memoryStore ==
        (if |old(memoryStore)| > 10_000 then Swept(old(memoryStore), now - windowMs) else old(memoryStore))
          [key := Live(old(seen), key, now - windowMs) + [now]]
    {
      hide Live, StoreAgrees, Swept;
      AgreesNow(now);
      SweepAgrees(memoryStore, seen, now - windowMs);
      if |memoryStore| > MEMORY_SWEEP_THRESHOLD {
        Sweep(now);
      }
      PushAgrees(memoryStore, seen, now - windowMs, key, now);
      LiveAppend(seen, Hit(key, now), key, now - windowMs);
      StoredIsLive(memoryStore, seen, now - windowMs, key);
      var hits := After(Stored(memoryStore, key), now - windowMs);
      hits := hits + [now];
      memoryStore := memoryStore[key := hits];
      count := |hits|;
      seen := seen + [Hit(key, now)];
    }

    lemma AgreesNow(now: int)
      requires Valid() && NotBefore(seen, now)
      ensures StoreAgrees(memoryStore, seen, now - windowMs)
      ensures Ordered(seen)
    {
      hide StoreAgrees;
      if seen != [] {
        StoreAgreesLater(memoryStore, seen, seen[|seen| - 1].time - windowMs, now - windowMs);
      } else {
        NothingSeen(now - windowMs);
      }
    }

    /** One request. `status` says how the Redis round trip of this request ends. */
    method Handle(redis: RedisStore, key: string, now: int, status: RedisStatus) returns (verdict: Verdict)
      requires Valid() && redis.Valid(windowMs)
      requires NotBefore(seen, now) && NotBefore(redis.seen, now) && now >= 0
      modifies this, redis
      ensures Valid() && redis.Valid(windowMs)
      ensures redis.seen == if status.Down? then old(redis.seen) else old(redis.seen) + [Hit(key, now)]
      ensures seen == if mode.MemoryFallback? && !status.Up? then old(seen) + [Hit(key, now)] else old(seen)
      ensures verdict.Admitted? <==>
        match (status, mode)
        case (Up, _) => 1 + |Live(old(redis.seen), key, now - windowMs)| <= max
        case (_, FailOpen) => true
        case (_, FailClosed) => false
        case (_, MemoryFallback) => 1 + |Live(old(seen), key, now - windowMs)| <= max
      ensures verdict.ServiceUnavailable? <==> mode.FailClosed? && !status.Up?
      ensures verdict.TooManyRequests? ==> 1000 * (verdict.retryAfterSec - 1) < windowMs <= 1000 * verdict.retryAfterSec
      ensures verdict.ServiceUnavailable? ==>
        && verdict.retryAfterSec <= 30 && 1000 * (verdict.retryAfterSec - 1) < windowMs
        && (windowMs <= 1000 * verdict.retryAfterSec || verdict.retryAfterSec == 30)
    {
      hide *;
      var count: int;
      var usable := false;
      if !status.Down? {
        count := redis.Pipeline(key, now, windowMs);
        usable := status.Up?;
      }
      if !usable {
        if mode.FailOpen? {
          return Admitted;
        }
        var ceil := CeilSeconds(windowMs);
        if !mode.MemoryFallback? {
          return ServiceUnavailable(AtMostRetry(ceil));
        }
        count := MemoryCount(key, now);
      }
      if count > max {
        return TooManyRequests(CeilSeconds(windowMs));
      }
      return Admitted;
    }
  }

  lemma NothingSeen(cutoff: int)
    ensures StoreAgrees(map[], [], cutoff)
  {
  }

  lemma StoredIsLive(store: MemoryStore, log: seq<Hit>, cutoff: int, key: string)
    requires StoreAgrees(store, log, cutoff)
    ensures After(Stored(store, key), cutoff) == Live(log, key, cutoff)
  {
  }

  // ---- Whole runs: several instances sharing one Redis ----

  datatype Step = Step(instance: nat, key: string, time: int, status: RedisStatus)
  datatype Config = Config(windowMs: int, max: int, mode: Mode)

  /** The pipelines that ran during `past`. */
  ghost function RedisLog(past: seq<Step>): (log: seq<Hit>)
    ensures forall h :: h in log ==> exists i :: 0 <= i < |past| && past[i].time == h.time
  {
    if past == [] then [] else
      var s := past[|past| - 1];
      RedisLog(past[..|past| - 1]) + if s.status.Down? then [] else [Hit(s.key, s.time)]
  }

  /** The requests an instance counted in its own memory during `past`. */
  ghost function MemoryLog(cfg: Config, past: seq<Step>, instance: nat): (log: seq<Hit>)
    ensures forall h :: h in log ==> exists i :: 0 <= i < |past| && past[i].time == h.time
  {
    if past == [] then [] else
      var s := past[|past| - 1];
      MemoryLog(cfg, past[..|past| - 1], instance)
      + if CountsInMemory(cfg, s, instance) then [Hit(s.key, s.time)] else []
  }

  predicate CountsInMemory(cfg: Config, s: Step, instance: nat) {
    cfg.mode.MemoryFallback? && !s.status.Up? && s.instance == instance
  }

  /** Whether `s`, arriving after `past`, is admitted: decided by counting in the complete logs. */
  ghost predicate Admits(cfg: Config, past: seq<Step>, s: Step) {
    match (s.status, cfg.mode)
    case (Up, _) => 1 + |Live(RedisLog(past), s.key, s.time - cfg.windowMs)| <= cfg.max
    case (_, FailOpen) => true
    case (_, FailClosed) => false
    case (_, MemoryFallback) => 1 + |Live(MemoryLog(cfg, past, s.instance), s.key, s.time - cfg.windowMs)| <= cfg.max
  }

  ghost predicate ClockRuns(steps: seq<Step>, instances: nat) {
    && (forall i :: 0 <= i < |steps| ==> steps[i].time >= 0 && steps[i].instance < instances)
    && forall i, j :: 0 <= i <= j < |steps| ==> steps[i].time <= steps[j].time
  }

  /** Each instance's limiter has seen exactly the requests `past` sent through its memory. */
  ghost predicate Tracks(limiters: seq<Limiter>, cfg: Config, past: seq<Step>)
    reads limiters
  {
    forall k :: 0 <= k < |limiters| ==>
      var l := limiters[k];
      && l.windowMs == cfg.windowMs && l.max == cfg.max && l.mode == cfg.mode
      && l.Valid() && l.seen == MemoryLog(cfg, past, k)
  }

  ghost predicate AllDifferent(limiters: seq<Limiter>) {
    forall k, l :: 0 <= k < l < |limiters| ==> limiters[k] != limiters[l]
  }

  method StartInstances(cfg: Config, instances: nat) returns (limiters: seq<Limiter>)
    ensures |limiters| == instances && fresh(limiters) && AllDifferent(limiters) && Tracks(limiters, cfg, [])
  {
    limiters := [];
    for j := 0 to instances
      invariant |limiters| == j && fresh(limiters) && AllDifferent(limiters) && Tracks(limiters, cfg, [])
    {
      var limiter := new Limiter(cfg.windowMs, cfg.max, cfg.mode);
      limiters := limiters + [limiter];
    }
  }

  lemma LogsGrow(cfg: Config, past: seq<Step>, s: Step)
    requires forall i :: 0 <= i < |past| ==> past[i].time <= s.time
    ensures RedisLog(past + [s]) == RedisLog(past) + if s.status.Down? then [] else [Hit(s.key, s.time)]
    ensures forall k {:trigger MemoryLog(cfg, past + [s], k)} ::
      MemoryLog(cfg, past + [s], k) == MemoryLog(cfg, past, k) + if CountsInMemory(cfg, s, k) then [Hit(s.key, s.time)] else []
    ensures NotBefore(RedisLog(past), s.time) && NotBefore(MemoryLog(cfg, past, s.instance), s.time)
  {
    assert (past + [s])[..|past|] == past;
  }

  /** One request of a run, at the instance it is routed to. */
  method Dispatch(cfg: Config, limiters: seq<Limiter>, redis: RedisStore, ghost past: seq<Step>, s: Step) returns (admitted: bool)
    requires AllDifferent(limiters) && Tracks(limiters, cfg, past) && s.instance < |limiters|
    requires redis.Valid(cfg.windowMs) && redis.seen == RedisLog(past)
    requires s.time >= 0 && forall i :: 0 <= i < |past| ==> past[i].time <= s.time
    modifies limiters, redis
    ensures Tracks(limiters, cfg, past + [s]) && redis.Valid(cfg.windowMs) && redis.seen == RedisLog(past + [s])
    ensures admitted <==> Admits(cfg, past, s)
  {
    hide Live, RedisLog, MemoryLog, NotBefore, Limiter.Valid, RedisStore.Valid;
    LogsGrow(cfg, past, s);
    var verdict := limiters[s.instance].Handle(redis, s.key, s.time, s.status);
    admitted := verdict.Admitted?;
  }

  /** The pruned, swept and expiring stores decide every request of every run as the complete logs do. */
  method Serve(cfg: Config, instances: nat, steps: seq<Step>) returns (admitted: seq<bool>)
    requires ClockRuns(steps, instances)
    ensures |admitted| == |steps|
    ensures forall i :: 0 <= i < |steps| ==> (admitted[i] <==> Admits(cfg, steps[..i], steps[i]))
  {
    hide *;
    var redis := new RedisStore();
    var limiters := StartInstances(cfg, instances);
    admitted := [];
    EmptyRun(cfg, steps[..0]);
    for i := 0 to |steps|
      invariant |admitted| == i && fresh(redis) && fresh(limiters)
      invariant |limiters| == instances && AllDifferent(limiters) && Tracks(limiters, cfg, steps[..i])
      invariant redis.Valid(cfg.windowMs) && redis.seen == RedisLog(steps[..i])
      invariant forall k :: 0 <= k < i ==> (admitted[k] <==> Admits(cfg, steps[..k], steps[k]))
    {
      ClockAt(steps, instances, i);
      var ok := Dispatch(cfg, limiters, redis, steps[..i], steps[i]);
      admitted := admitted + [ok];
    }
  }

  lemma EmptyRun(cfg: Config, past: seq<Step>)
    requires past == []
    ensures RedisLog(past) == []
  {
  }

  lemma ClockAt(steps: seq<Step>, instances: nat, i: nat)
    requires ClockRuns(steps, instances) && i < |steps|
    ensures steps[i].time >= 0 && steps[i].instance < instances && steps[..i + 1] == steps[..i] + [steps[i]]
    ensures forall k :: 0 <= k < |steps[..i]| ==> steps[..i][k].time <= steps[i].time
  {
  }

  // ---- The bounds ----

  /** The log a decision was counted in. */
  datatype Channel = ViaRedis | ViaMemory(instance: nat) | Uncounted

  function ChannelOf(cfg: Config, s: Step): Channel {
    if s.status.Up? then ViaRedis
    else if cfg.mode.MemoryFallback? then ViaMemory(s.instance)
    else Uncounted
  }

  predicate InWindow(cfg: Config, s: Step, key: string, start: int) {
    s.key == key && start < s.time <= start + cfg.windowMs
  }

  /** The configured limit; a negative one admits nothing. */
  function Cap(cfg: Config): nat {
    if cfg.max < 0 then 0 else cfg.max
  }

  /** Requests of `key` admitted within (start, start + windowMs] through the given channel. */
  ghost function AdmittedVia(cfg: Config, steps: seq<Step>, key: string, start: int, c: Channel): nat {
    if steps == [] then 0 else
      var past, s := steps[..|steps| - 1], steps[|steps| - 1];
      AdmittedVia(cfg, past, key, start, c)
      + if InWindow(cfg, s, key, start) && ChannelOf(cfg, s) == c && Admits(cfg, past, s) then 1 else 0
  }

  /** All requests of `key` admitted within (start, start + windowMs], by any instance. */
  ghost function AdmittedTotal(cfg: Config, steps: seq<Step>, key: string, start: int): nat {
    if steps == [] then 0 else
      var past, s := steps[..|steps| - 1], steps[|steps| - 1];
      AdmittedTotal(cfg, past, key, start) + if InWindow(cfg, s, key, start) && Admits(cfg, past, s) then 1 else 0
  }

  ghost function AdmittedByInstance(cfg: Config, steps: seq<Step>, key: string, start: int, instance: nat): nat {
    if steps == [] then 0 else
      var past, s := steps[..|steps| - 1], steps[|steps| - 1];
      AdmittedByInstance(cfg, past, key, start, instance)
      + if InWindow(cfg, s, key, start) && s.instance == instance && Admits(cfg, past, s) then 1 else 0
  }

  /** Requests of `key` within the window that Redis did not answer. */
  ghost function Outages(cfg: Config, steps: seq<Step>, key: string, start: int): nat {
    if steps == [] then 0 else
      var s := steps[|steps| - 1];
      Outages(cfg, steps[..|steps| - 1], key, start) + if InWindow(cfg, s, key, start) && !s.status.Up? then 1 else 0
  }

  ghost function LogOf(cfg: Config, past: seq<Step>, c: Channel): seq<Hit> {
    match c
    case ViaRedis => RedisLog(past)
    case ViaMemory(j) => MemoryLog(cfg, past, j)
    case Uncounted => []
  }

  /** Everything admitted through a channel was counted in the channel's log. */
  lemma {:induction false} AdmittedAreLogged(cfg: Config, steps: seq<Step>, key: string, start: int, c: Channel)
    requires !c.Uncounted?
    ensures AdmittedVia(cfg, steps, key, start, c) <= |Live(LogOf(cfg, steps, c), key, start)|
  {
    hide Live, Admits;
    if steps != [] {
      var past, s := steps[..|steps| - 1], steps[|steps| - 1];
      AdmittedAreLogged(cfg, past, key, start, c);
      LiveAppend(LogOf(cfg, past, c), Hit(s.key, s.time), key, start);
      assert LogOf(cfg, past, c) + [] == LogOf(cfg, past, c);
    }
  }

  /** No window of any run holds more than `max` admissions through one counted channel. */
  lemma {:induction false} ChannelBound(cfg: Config, steps: seq<Step>, key: string, start: int, c: Channel)
    requires !c.Uncounted?
    ensures AdmittedVia(cfg, steps, key, start, c) <= Cap(cfg)
  {
    hide Live, RedisLog, MemoryLog;
    if steps != [] {
      var past, s := steps[..|steps| - 1], steps[|steps| - 1];
      ChannelBound(cfg, past, key, start, c);
      if InWindow(cfg, s, key, start) && ChannelOf(cfg, s) == c && Admits(cfg, past, s) {
        AdmittedAreLogged(cfg, past, key, start, c);
        LiveAntitone(LogOf(cfg, past, c), key, s.time - cfg.windowMs, start);
      }
    }
  }

  /** Admissions of one instance are those it took through Redis and those from its own memory. */
  lemma {:induction false} InstanceSplits(cfg: Config, steps: seq<Step>, key: string, start: int, instance: nat)
    requires cfg.mode.MemoryFallback?
    ensures AdmittedByInstance(cfg, steps, key, start, instance)
         <= AdmittedVia(cfg, steps, key, start, ViaRedis) + AdmittedVia(cfg, steps, key, start, ViaMemory(instance))
  {
    if steps != [] {
      InstanceSplits(cfg, steps[..|steps| - 1], key, start, instance);
    }
  }

  ghost function AdmittedFromMemories(cfg: Config, steps: seq<Step>, key: string, start: int, instances: nat): nat {
    if instances == 0 then 0 else
      AdmittedFromMemories(cfg, steps, key, start, instances - 1) + AdmittedVia(cfg, steps, key, start, ViaMemory(instances - 1))
  }

  lemma {:induction false} MemoriesGrow(cfg: Config, steps: seq<Step>, key: string, start: int, instances: nat)
    requires steps != []
    ensures
      var past, s := steps[..|steps| - 1], steps[|steps| - 1];
      AdmittedFromMemories(cfg, steps, key, start, instances) == AdmittedFromMemories(cfg, past, key, start, instances)
        + if ChannelOf(cfg, s).ViaMemory? && s.instance < instances && InWindow(cfg, s, key, start) && Admits(cfg, past, s) then 1 else 0
  {
    if instances > 0 {
      MemoriesGrow(cfg, steps, key, start, instances - 1);
    }
  }

  lemma {:induction false} TotalSplits(cfg: Config, steps: seq<Step>, key: string, start: int, instances: nat)
    requires forall i :: 0 <= i < |steps| ==> steps[i].instance < instances
    ensures AdmittedTotal(cfg, steps, key, start)
         == AdmittedVia(cfg, steps, key, start, ViaRedis) + AdmittedFromMemories(cfg, steps, key, start, instances)
          + AdmittedVia(cfg, steps, key, start, Uncounted)
  {
    if steps == [] {
      NoMemories(cfg, key, start, instances);
    } else {
      TotalSplits(cfg, steps[..|steps| - 1], key, start, instances);
      MemoriesGrow(cfg, steps, key, start, instances);
    }
  }

  lemma {:induction false} NoMemories(cfg: Config, key: string, start: int, instances: nat)
    ensures AdmittedFromMemories(cfg, [], key, start, instances) == 0
  {
    if instances > 0 {
      NoMemories(cfg, key, start, instances - 1);
    }
  }

  lemma {:induction false} MemoriesBound(cfg: Config, steps: seq<Step>, key: string, start: int, instances: nat)
    ensures AdmittedFromMemories(cfg, steps, key, start, instances) <= instances * Cap(cfg)
  {
    if instances > 0 {
      hide AdmittedVia;
      assert (instances - 1) * Cap(cfg) + Cap(cfg) == instances * Cap(cfg);
      MemoriesBound(cfg, steps, key, start, instances - 1);
      ChannelBound(cfg, steps, key, start, ViaMemory(instances - 1));
    }
  }

  lemma {:induction false} UncountedBound(cfg: Config, steps: seq<Step>, key: string, start: int)
    ensures AdmittedVia(cfg, steps, key, start, Uncounted) <= Outages(cfg, steps, key, start)
    ensures !cfg.mode.FailOpen? ==> AdmittedVia(cfg, steps, key, start, Uncounted) == 0
  {
    if steps != [] {
      UncountedBound(cfg, steps[..|steps| - 1], key, start);
    }
  }

  /**
   * The bound on every window of every run, whatever Redis does and however many instances share
   * it: `max` when failing closed, `max` more per instance with the memory fallback, and one more
   * per unanswered request when failing open.
   */
  lemma WindowBound(cfg: Config, steps: seq<Step>, key: string, start: int, instances: nat)
    requires forall i :: 0 <= i < |steps| ==> steps[i].instance < instances
    ensures cfg.mode.FailClosed? ==> AdmittedTotal(cfg, steps, key, start) <= Cap(cfg)
    ensures cfg.mode.MemoryFallback? ==> AdmittedTotal(cfg, steps, key, start) <= (instances + 1) * Cap(cfg)
    ensures cfg.mode.MemoryFallback? ==> forall j :: AdmittedByInstance(cfg, steps, key, start, j) <= 2 * Cap(cfg)
    ensures cfg.mode.FailOpen? ==> AdmittedTotal(cfg, steps, key, start) <= Cap(cfg) + Outages(cfg, steps, key, start)
  {
    ChannelBound(cfg, steps, key, start, ViaRedis);
    TotalSplits(cfg, steps, key, start, instances);
    MemoriesBound(cfg, steps, key, start, instances);
    UncountedBound(cfg, steps, key, start);
    if !cfg.mode.MemoryFallback? {
      OnlyFallbackUsesMemory(cfg, steps, key, start, instances);
    } else {
      forall j ensures AdmittedByInstance(cfg, steps, key, start, j) <= 2 * Cap(cfg) {
        InstanceSplits(cfg, steps, key, start, j);
        ChannelBound(cfg, steps, key, start, ViaMemory(j));
      }
    }
  }

  lemma {:induction false} OnlyFallbackUsesMemory(cfg: Config, steps: seq<Step>, key: string, start: int, instances: nat)
    requires !cfg.mode.MemoryFallback?
    ensures AdmittedFromMemories(cfg, steps, key, start, instances) == 0
  {
    if steps == [] {
      NoMemories(cfg, key, start, instances);
    } else {
      OnlyFallbackUsesMemory(cfg, steps[..|steps| - 1], key, start, instances);
      MemoriesGrow(cfg, steps, key, start, instances);
    }
  }

  // ---- The bounds are attained ----

  /** `n` requests of `key` to one instance at time 1. */
  function Burst(instance: nat, key: string, status: RedisStatus, n: nat): (steps: seq<Step>)
    ensures |steps| == n && forall i :: 0 <= i < n ==> steps[i] == Step(instance, key, 1, status)
  {
    if n == 0 then [] else Burst(instance, key, status, n - 1) + [Step(instance, key, 1, status)]
  }

  lemma BurstAfter(past: seq<Step>, instance: nat, key: string, status: RedisStatus, n: nat)
    ensures n == 0 ==> past + Burst(instance, key, status, n) == past
    ensures n > 0 ==>
      past + Burst(instance, key, status, n) == past + Burst(instance, key, status, n - 1) + [Step(instance, key, 1, status)]
  {
  }

  /** What the complete logs and the counters show for `key` at time 1. */
  ghost predicate Shows(cfg: Config, steps: seq<Step>, key: string, viaRedis: nat, instance: nat, fromMemory: nat, total: nat, byFirst: nat) {
    && |Live(RedisLog(steps), key, 1 - cfg.windowMs)| == viaRedis
    && |Live(MemoryLog(cfg, steps, instance), key, 1 - cfg.windowMs)| == fromMemory
    && AdmittedTotal(cfg, steps, key, 0) == total
    && AdmittedByInstance(cfg, steps, key, 0, 0) == byFirst
  }

  lemma ShowsNext(cfg: Config, past: seq<Step>, s: Step, key: string, r: nat, m: nat, total: nat, byFirst: nat)
    requires cfg.windowMs >= 1 && s.key == key && s.time == 1 && Admits(cfg, past, s)
    requires Shows(cfg, past, key, r, s.instance, m, total, byFirst)
    ensures Shows(cfg, past + [s], key, if s.status.Down? then r else r + 1, s.instance,
              if CountsInMemory(cfg, s, s.instance) then m + 1 else m, total + 1, if s.instance == 0 then byFirst + 1 else byFirst)
  {
    hide Live, Admits;
    assert (past + [s])[..|past|] == past;
    LiveAppend(RedisLog(past), Hit(key, 1), key, 1 - cfg.windowMs);
    LiveAppend(MemoryLog(cfg, past, s.instance), Hit(key, 1), key, 1 - cfg.windowMs);
    assert RedisLog(past) + [] == RedisLog(past);
    assert MemoryLog(cfg, past, s.instance) + [] == MemoryLog(cfg, past, s.instance);
  }

  lemma NothingShown(cfg: Config, key: string)
    ensures Shows(cfg, [], key, 0, 0, 0, 0, 0)
  {
  }

  /** While Redis answers, as many requests as configured are admitted through it. */
  lemma {:induction false} RedisFills(cfg: Config, key: string, n: nat)
    requires cfg.windowMs >= 1 && n <= cfg.max
    ensures Shows(cfg, Burst(0, key, Up, n), key, n, 0, 0, n, n)
  {
    hide Shows, Admits;
    if n == 0 {
      NothingShown(cfg, key);
    } else {
      var before, s := Burst(0, key, Up, n - 1), Step(0, key, 1, Up);
      RedisFills(cfg, key, n - 1);
      ShowsAdmits(cfg, before, s, n - 1, 0, n - 1, n - 1);
      ShowsNext(cfg, before, s, key, n - 1, 0, n - 1, n - 1);
    }
  }

  lemma ShowsAdmits(cfg: Config, past: seq<Step>, s: Step, r: nat, m: nat, total: nat, byFirst: nat)
    requires Shows(cfg, past, s.key, r, s.instance, m, total, byFirst) && s.time == 1
    requires s.status.Up? ==> r < cfg.max
    requires !s.status.Up? ==> cfg.mode.FailOpen? || (cfg.mode.MemoryFallback? && m < cfg.max)
    ensures Admits(cfg, past, s)
  {
  }

  /** While Redis is down, as many again are admitted from the memory of an instance that has not served yet. */
  lemma {:induction false} MemoryFills(cfg: Config, past: seq<Step>, key: string, instance: nat, n: nat, r: nat, total: nat, byFirst: nat)
    requires cfg.windowMs >= 1 && n <= cfg.max && cfg.mode.MemoryFallback?
    requires Shows(cfg, past, key, r, instance, 0, total, byFirst)
    ensures Shows(cfg, past + Burst(instance, key, Down, n), key, r, instance, n, total + n, if instance == 0 then byFirst + n else byFirst)
  {
    hide *;
    BurstAfter(past, instance, key, Down, n);
    if n > 0 {
      var before := past + Burst(instance, key, Down, n - 1);
      var s := Step(instance, key, 1, Down);
      MemoryFills(cfg, past, key, instance, n - 1, r, total, byFirst);
      var byFirst' := if instance == 0 then byFirst + (n - 1) else byFirst;
      ShowsAdmits(cfg, before, s, r, n - 1, total + (n - 1), byFirst');
      ShowsNext(cfg, before, s, key, r, n - 1, total + (n - 1), byFirst');
      DownCountsInMemory(cfg, s);
    }
  }

  lemma DownCountsInMemory(cfg: Config, s: Step)
    requires cfg.mode.MemoryFallback? && s.status.Down?
    ensures CountsInMemory(cfg, s, s.instance)
  {
  }

  /** What an outage adds, instance by instance, to a run. */
  function Outage(key: string, max: nat, instances: nat): (steps: seq<Step>)
    ensures forall i :: 0 <= i < |steps| ==> steps[i].instance < instances && steps[i].time == 1
  {
    if instances == 0 then [] else Outage(key, max, instances - 1) + Burst(instances - 1, key, Down, max)
  }

  lemma {:induction false} UntouchedMemory(cfg: Config, steps: seq<Step>, instance: nat)
    requires forall i :: 0 <= i < |steps| ==> steps[i].instance != instance || steps[i].status.Up?
    ensures MemoryLog(cfg, steps, instance) == []
  {
    if steps != [] {
      UntouchedMemory(cfg, steps[..|steps| - 1], instance);
    }
  }

  /** All of it: Redis has filled up, and then every memory has. */
  ghost predicate AllFilled(cfg: Config, steps: seq<Step>, key: string, instances: nat) {
    && AdmittedTotal(cfg, steps, key, 0) == (instances + 1) * cfg.max
    && AdmittedByInstance(cfg, steps, key, 0, 0) == (if instances == 0 then cfg.max else 2 * cfg.max)
    && |Live(RedisLog(steps), key, 1 - cfg.windowMs)| == cfg.max
  }

  lemma FilledShows(cfg: Config, steps: seq<Step>, key: string, j: nat)
    requires cfg.max >= 0 && AllFilled(cfg, steps, key, j) && MemoryLog(cfg, steps, j) == []
    ensures (j + 1) * cfg.max >= 0
    ensures Shows(cfg, steps, key, cfg.max, j, 0, (j + 1) * cfg.max, if j == 0 then cfg.max else 2 * cfg.max)
  {
    hide AdmittedTotal, AdmittedByInstance, Live, RedisLog;
    NoHits(key, 1 - cfg.windowMs);
  }

  lemma ShowsFilled(cfg: Config, steps: seq<Step>, key: string, j: nat, total: nat)
    requires cfg.max >= 0 && total == (j + 1) * cfg.max
    requires Shows(cfg, steps, key, cfg.max, j, cfg.max, total + cfg.max, if j == 0 then cfg.max + cfg.max else 2 * cfg.max)
    ensures AllFilled(cfg, steps, key, j + 1)
  {
    assert (j + 1) * cfg.max + cfg.max == (j + 2) * cfg.max;
  }

  lemma {:induction false} OutageFills(cfg: Config, key: string, instances: nat)
    requires cfg.windowMs >= 1 && cfg.max >= 0 && cfg.mode.MemoryFallback?
    ensures AllFilled(cfg, Burst(0, key, Up, cfg.max) + Outage(key, cfg.max, instances), key, instances)
  {
    var first := Burst(0, key, Up, cfg.max);
    if instances == 0 {
      RedisFills(cfg, key, cfg.max);
      assert first + Outage(key, cfg.max, 0) == first;
    } else {
      var j := instances - 1;
      var before := first + Outage(key, cfg.max, j);
      assert first + Outage(key, cfg.max, instances) == before + Burst(j, key, Down, cfg.max);
      hide *;
      OutageFills(cfg, key, j);
      UntouchedMemory(cfg, before, j);
      FilledShows(cfg, before, key, j);
      MemoryFills(cfg, before, key, j, cfg.max, cfg.max, (j + 1) * cfg.max, if j == 0 then cfg.max else 2 * cfg.max);
      ShowsFilled(cfg, before + Burst(j, key, Down, cfg.max), key, j, (j + 1) * cfg.max);
    }
  }

  lemma NoHits(key: string, cutoff: int)
    ensures Live([], key, cutoff) == []
  {
  }

  /** The bounds with the memory fallback cannot be lowered: for every window and limit some run attains both. */
  lemma WindowBoundAttained(cfg: Config, key: string, instances: nat) returns (steps: seq<Step>)
    requires cfg.windowMs >= 1 && cfg.max >= 0 && cfg.mode.MemoryFallback? && instances > 0
    ensures ClockRuns(steps, instances)
    ensures AdmittedTotal(cfg, steps, key, 0) == (instances + 1) * Cap(cfg)
    ensures AdmittedByInstance(cfg, steps, key, 0, 0) == 2 * Cap(cfg)
  {
    hide AdmittedTotal, AdmittedByInstance, Live, RedisLog, Burst, Outage;
    steps := Burst(0, key, Up, cfg.max) + Outage(key, cfg.max, instances);
    OutageFills(cfg, key, instances);
  }

  /** Nor can the bound when failing closed. */
  lemma ClosedBoundAttained(cfg: Config, key: string) returns (steps: seq<Step>)
    requires cfg.windowMs >= 1 && cfg.max >= 0
    ensures ClockRuns(steps, 1) && AdmittedTotal(cfg, steps, key, 0) == Cap(cfg)
  {
    steps := Burst(0, key, Up, cfg.max);
    RedisFills(cfg, key, cfg.max);
  }
}
