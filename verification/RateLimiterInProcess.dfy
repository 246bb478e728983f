/** The in-process limiter: a deque of hit times per key, evicted on every
    check and swept now and then. Proved to answer every call as the
    complete log would. */
module RateLimiterInProcess {
  import opened Common
  import opened RateLimit

  const SWEEP_EVERY_CHECKS := 1000

  /** `deque` is `hits` without some leading hits that are out of the
      window at `clock`, and so at every later time. */
  ghost predicate Trimmed(hits: seq<real>, deque: seq<real>, window: real, clock: real) {
    && |deque| <= |hits| && deque == hits[|hits| - |deque|..]
    && (forall i :: 0 <= i < |hits| - |deque| ==> hits[i] <= clock - window)
  }

  /** Trimming does not change what is live, then or later. */
  lemma TrimmedLive(hits: seq<real>, deque: seq<real>, window: real, clock: real, now: real)
    requires Trimmed(hits, deque, window, clock) && clock <= now
    ensures Live(deque, window, now) == Live(hits, window, now)
    ensures Trimmed(hits, deque, window, now)
  {
    var k := |hits| - |deque|;
    assert hits == hits[..k] + hits[k..];
    FilterAppend(hits[..k], hits[k..], After(now - window));
    FilterNone(hits[..k], After(now - window));
  }

  /** Popping a hit that is out of the window keeps a deque in step. */
  lemma PopTrimmed(hits: seq<real>, deque: seq<real>, window: real, clock: real)
    requires Trimmed(hits, deque, window, clock) && deque != [] && deque[0] <= clock - window
    ensures Trimmed(hits, deque[1..], window, clock)
  {
  }

  lemma EvictedIsLive(hits: seq<real>, deque: seq<real>, window: real, now: real)
    requires Sorted(hits) && Trimmed(hits, deque, window, now)
    requires deque != [] ==> deque[0] > now - window
    ensures deque == Live(hits, window, now)
  {
    TrimmedLive(hits, deque, window, now, now);
    FilterAll(deque, After(now - window));
  }

  type Entries = map<string, (seq<real>, real)>

  function Deque(entries: Entries, key: string): seq<real> {
    if key in entries then entries[key].0 else []
  }

  ghost predicate KeyTracks(cfg: Config, log: Log, entries: Entries, clock: real, k: string) {
    && Trimmed(Hits(log, k), Deque(entries, k), cfg(k).window, clock)
    && (k in entries ==> entries[k].1 == cfg(k).window)
  }

  /** Every deque is its key's log, trimmed. */
  ghost predicate Tracks(cfg: Config, log: Log, entries: Entries, clock: real) {
    forall k {:trigger KeyTracks(cfg, log, entries, clock, k)} :: KeyTracks(cfg, log, entries, clock, k)
  }

  lemma TracksLater(cfg: Config, log: Log, entries: Entries, clock: real, now: real)
    requires Tracks(cfg, log, entries, clock) && clock <= now
    ensures Tracks(cfg, log, entries, now)
  {
    forall k
      ensures KeyTracks(cfg, log, entries, now, k)
    {
      assert KeyTracks(cfg, log, entries, clock, k);
      TrimmedLive(Hits(log, k), Deque(entries, k), cfg(k).window, clock, now);
    }
  }

  lemma TracksUpdate(cfg: Config, log: Log, entries: Entries, clock: real, key: string, deque: seq<real>)
    requires Tracks(cfg, log, entries, clock) && Trimmed(Hits(log, key), deque, cfg(key).window, clock)
    ensures Tracks(cfg, log, entries[key := (deque, cfg(key).window)], clock)
  {
    var next := entries[key := (deque, cfg(key).window)];
    forall k
      ensures KeyTracks(cfg, log, next, clock, k)
    {
      assert KeyTracks(cfg, log, entries, clock, k);
    }
  }

  predicate Stale(entry: (seq<real>, real), now: real) {
    entry.0 == [] || entry.0[|entry.0| - 1] <= now - entry.1
  }

  lemma StaleTrimmed(hits: seq<real>, deque: seq<real>, window: real, clock: real)
    requires Sorted(hits) && Trimmed(hits, deque, window, clock) && Stale((deque, window), clock)
    ensures Trimmed(hits, [], window, clock)
  {
  }

  lemma TracksSweep(cfg: Config, log: Log, entries: Entries, clock: real, stale: set<string>)
    requires LogOk(cfg, log, clock) && Tracks(cfg, log, entries, clock)
    requires forall k :: k in stale ==> k in entries && Stale(entries[k], clock)
    ensures Tracks(cfg, log, entries - stale, clock)
  {
    forall k
      ensures KeyTracks(cfg, log, entries - stale, clock, k)
    {
      assert KeyTracks(cfg, log, entries, clock, k);
      if k in stale {
        assert KeyLogOk(cfg, log, clock, k);
        StaleTrimmed(Hits(log, k), Deque(entries, k), cfg(k).window, clock);
      }
    }
  }

  /** A swept key is one without a hit inside its window. */
  lemma StaleExactly(hits: seq<real>, deque: seq<real>, window: real, now: real)
    requires Sorted(hits) && Trimmed(hits, deque, window, now)
    ensures Stale((deque, window), now) <==> Live(hits, window, now) == []
  {
    TrimmedLive(hits, deque, window, now, now);
    var a := AfterIsSuffix(deque, now - window);
  }

  function Appended(entries: Entries, keys: set<string>, now: real): Entries {
    map k | k in entries :: if k in keys then (entries[k].0 + [now], entries[k].1) else entries[k]
  }

  lemma TrimmedAppend(hits: seq<real>, deque: seq<real>, window: real, now: real)
    requires Trimmed(hits, deque, window, now)
    ensures Trimmed(hits + [now], deque + [now], window, now)
  {
  }

  lemma TracksRecord(cfg: Config, log: Log, entries: Entries, buckets: seq<Bucket>, now: real)
    requires Tracks(cfg, log, entries, now) && WorstFull(log, buckets, now).None?
    requires Keys(buckets) <= entries.Keys
    ensures Tracks(cfg, Record(log, buckets, now), Appended(entries, Keys(buckets), now), now)
  {
    var log', entries' := Record(log, buckets, now), Appended(entries, Keys(buckets), now);
    forall k
      ensures KeyTracks(cfg, log', entries', now, k)
    {
      assert KeyTracks(cfg, log, entries, now, k);
      if k in Keys(buckets) {
        TrimmedAppend(Hits(log, k), Deque(entries, k), cfg(k).window, now);
        assert Hits(log', k) == Hits(log, k) + [now];
      } else {
        assert Hits(log', k) == Hits(log, k);
      }
    }
  }

  lemma KeysStep(buckets: seq<Bucket>, i: nat)
    requires i < |buckets|
    ensures Keys(buckets[..i + 1]) == Keys(buckets[..i]) + {buckets[i].key}
  {
    assert buckets[..i + 1] == buckets[..i] + [buckets[i]];
  }

  class InProcessRateLimiter {
    var hits: Entries
    var checksSinceSweep: nat
    ghost const cfg: Config
    ghost var log: Log
    ghost var clock: real

    ghost predicate Valid()
      reads this
    {
      LogOk(cfg, log, clock) && Tracks(cfg, log, hits, clock)
    }

    constructor (ghost cfg: Config, ghost clock: real)
      ensures Valid() && this.cfg == cfg && log == map[] && this.clock == clock
    {
      hits, checksSinceSweep := map[], 0;
      this.cfg, log, this.clock := cfg, map[], clock;
      assert forall k {:trigger KeyTracks(cfg, map[], map[], clock, k)} :: KeyTracks(cfg, map[], map[], clock, k);
      assert forall k {:trigger KeyLogOk(cfg, map[], clock, k)} :: KeyLogOk(cfg, map[], clock, k);
    }

    /** `_maybe_sweep`: every thousandth check keeps exactly the keys with a
        hit inside their window. */
    method MaybeSweep(now: real)
      requires Valid() && clock == now
      modifies this`hits, this`checksSinceSweep
      ensures Valid()
      ensures checksSinceSweep == if old(checksSinceSweep) + 1 < SWEEP_EVERY_CHECKS then old(checksSinceSweep) + 1 else 0
      ensures checksSinceSweep != 0 ==> hits == old(hits)
      ensures checksSinceSweep == 0 ==> forall k :: k in hits <==> Live(Hits(log, k), cfg(k).window, now) != []
    {
      checksSinceSweep := checksSinceSweep + 1;
      if checksSinceSweep < SWEEP_EVERY_CHECKS {
        return;
      }
      checksSinceSweep := 0;
      var stale := set k | k in hits && Stale(hits[k], now);
      TracksSweep(cfg, log, hits, clock, stale);
      forall k
        ensures k in hits - stale <==> Live(Hits(log, k), cfg(k).window, now) != []
      {
        assert KeyTracks(cfg, log, hits, clock, k) && KeyLogOk(cfg, log, clock, k);
        StaleExactly(Hits(log, k), Deque(hits, k), cfg(k).window, now);
      }
      hits := hits - stale;
    }

    /** `_evicted_hits`: the deque of a bucket with its old hits popped. */
    method EvictedHits(bucket: Bucket, now: real) returns (deque: seq<real>)
      requires Valid() && clock == now && Reads(cfg, bucket)
      modifies this`hits
      ensures Valid() && hits.Keys == old(hits).Keys + {bucket.key}
      ensures deque == Live(Hits(log, bucket.key), bucket.window, now)
    {
      deque := Deque(hits, bucket.key);
      ghost var full := Hits(log, bucket.key);
      assert KeyTracks(cfg, log, hits, clock, bucket.key);
      while deque != [] && deque[0] <= now - bucket.window
        invariant hits == old(hits) && Trimmed(full, deque, bucket.window, now)
      {
        PopTrimmed(full, deque, bucket.window, now);
        deque := deque[1..];
      }
      assert KeyLogOk(cfg, log, clock, bucket.key);
      EvictedIsLive(full, deque, bucket.window, now);
      TracksUpdate(cfg, log, hits, clock, bucket.key, deque);
      hits := hits[bucket.key := (deque, bucket.window)];
    }

    /** One turn of the first loop of `check`. */
    method NextRefusal(now: real, buckets: seq<Bucket>, i: nat, before: Option<Result>) returns (refusal: Option<Result>)
      requires Valid() && clock == now && i < |buckets| && Reads(cfg, buckets[i])
      requires before == Refusal(log, buckets[..i], now)
      modifies this`hits
      ensures Valid() && hits.Keys == old(hits).Keys + {buckets[i].key}
      ensures refusal == Refusal(log, buckets[..i + 1], now)
    {
      refusal := before;
      var bucket := buckets[i];
      var deque := EvictedHits(bucket, now);
      RefusalStep(log, buckets, now, i);
      BucketWait(cfg, log, bucket, now, deque);
      if |deque| < bucket.limit {
        return;
      }
      var retryAfter := Clamp(deque[0] + bucket.window - now, bucket.window);
      if refusal.None? || retryAfter > refusal.value.retryAfter.value {
        refusal := Some(Result(false, Some(retryAfter), Some(bucket)));
      }
    }

    /** The first loop of `check`: the refusal, if some bucket is full. */
    method FindRefusal(now: real, buckets: seq<Bucket>) returns (refusal: Option<Result>)
      requires Valid() && clock == now && CallOk(cfg, buckets)
      modifies this`hits
      ensures Valid() && hits.Keys == old(hits).Keys + Keys(buckets)
      ensures refusal == Refusal(log, buckets, now)
    {
      refusal := None;
      for i := 0 to |buckets|
        invariant Valid() && hits.Keys == old(hits).Keys + Keys(buckets[..i])
        invariant refusal == Refusal(log, buckets[..i], now)
      {
        KeysStep(buckets, i);
        refusal := NextRefusal(now, buckets, i, refusal);
      }
      assert buckets[..|buckets|] == buckets;
    }

    /** The second loop of `check`: the hit goes to every bucket. */
    method AppendHit(now: real, buckets: seq<Bucket>)
      requires forall i, j :: 0 <= i < j < |buckets| ==> buckets[i].key != buckets[j].key
      requires Keys(buckets) <= hits.Keys
      modifies this`hits
      ensures hits == Appended(old(hits), Keys(buckets), now)
    {
      for i := 0 to |buckets|
        invariant hits == Appended(old(hits), Keys(buckets[..i]), now)
      {
        var key := buckets[i].key;
        assert key !in Keys(buckets[..i]);
        assert buckets[..i + 1] == buckets[..i] + [buckets[i]];
        assert Keys(buckets[..i + 1]) == Keys(buckets[..i]) + {key};
        hits := hits[key := (hits[key].0 + [now], hits[key].1)];
      }
      assert buckets[..|buckets|] == buckets;
    }

    /** `check`: answers as the complete log does. Eviction, sweeps and
        refused calls cannot be seen from outside. Every thousandth check
        leaves only its own keys and those with a hit in their window. */
    method Check(now: real, buckets: seq<Bucket>) returns (r: Result)
      requires Valid() && clock <= now && CallOk(cfg, buckets)
      modifies this
      ensures Valid() && clock == now
      ensures r == Decide(old(log), buckets, now)
      ensures log == Record(old(log), buckets, now)
      ensures checksSinceSweep == if old(checksSinceSweep) + 1 < SWEEP_EVERY_CHECKS then old(checksSinceSweep) + 1 else 0
      ensures checksSinceSweep == 0 ==>
        forall k :: k in hits <==> k in Keys(buckets) || Live(Hits(old(log), k), cfg(k).window, now) != []
    {
      TracksLater(cfg, log, hits, clock, now);
      LogOkLater(cfg, log, clock, now);
      clock := now;
      MaybeSweep(now);
      var refusal := FindRefusal(now, buckets);
      if refusal.Some? {
        return refusal.value;
      }
      RecordKeepsLogOk(cfg, log, now, buckets, now);
      TracksRecord(cfg, log, hits, buckets, now);
      AppendHit(now, buckets);
      log := Record(log, buckets, now);
      r := Result(true, None, None);
    }

    /** Over any run of calls, the answers are those of the complete log. */
    method Run(calls: seq<Call>) returns (answers: seq<Result>)
      requires Valid() && CallsOk(cfg, clock, calls)
      modifies this
      ensures Valid() && answers == Answers(old(log), calls) && log == LogAfter(old(log), calls)
    {
      answers := [];
      for i := 0 to |calls|
        invariant Valid() && (forall j :: i <= j < |calls| ==> clock <= calls[j].now)
        invariant answers == Answers(old(log), calls[..i]) && log == LogAfter(old(log), calls[..i])
      {
        assert calls[..i + 1][..i] == calls[..i];
        var answer := Check(calls[i].now, calls[i].buckets);
        answers := answers + [answer];
      }
      assert calls[..|calls|] == calls;
    }
  }
}
