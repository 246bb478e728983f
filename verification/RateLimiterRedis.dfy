/** The Redis limiter: one script over a ZSET per key, with key expiry.
    Proved to answer every call as the complete log would, and so as the
    in-process limiter does. */
module RateLimiterRedis {
  import opened Common
  import opened RateLimit
  import opened RateLimiterInProcess

  // ----- ZSETs -----

  /** The value of a hit, `{now}:{instance}:{counter}`. */
  datatype Member = Member(now: real, instance: string, counter: nat)

  datatype Entry = Entry(score: real, member: Member)

  /** A ZSET, lowest score first, and when its key expires. */
  datatype ZSet = ZSet(entries: seq<Entry>, expireAt: real)

  function Scores(entries: seq<Entry>): seq<real> {
    seq(|entries|, i requires 0 <= i < |entries| => entries[i].score)
  }

  function InsertByScore(entries: seq<Entry>, e: Entry): seq<Entry> {
    if entries == [] || entries[|entries| - 1].score <= e.score then entries + [e]
    else InsertByScore(entries[..|entries| - 1], e) + [entries[|entries| - 1]]
  }

  function NotMember(member: Member): Entry -> bool {
    (e: Entry) => e.member != member
  }

  function Newer(max: real): Entry -> bool {
    (e: Entry) => e.score > max
  }

  /** `ZADD`: a member already there gets the new score. */
  function ZAdd(entries: seq<Entry>, score: real, member: Member): seq<Entry> {
    InsertByScore(Filter(entries, NotMember(member)), Entry(score, member))
  }

  /** `ZREMRANGEBYSCORE key -inf max` */
  function ZRemUpTo(entries: seq<Entry>, max: real): seq<Entry> {
    Filter(entries, Newer(max))
  }

  /** Under a clock that does not go back, a new member goes last. */
  lemma ZAddAppends(entries: seq<Entry>, score: real, member: Member)
    requires forall e :: e in entries ==> e.member != member && e.score <= score
    ensures ZAdd(entries, score, member) == entries + [Entry(score, member)]
  {
    FilterAll(entries, NotMember(member));
    if entries != [] {
      assert entries[|entries| - 1] in entries;
    }
  }

  lemma {:induction false} ZRemScores(entries: seq<Entry>, max: real)
    ensures Scores(ZRemUpTo(entries, max)) == Filter(Scores(entries), After(max))
  {
    if entries == [] {
    } else {
      ZRemScores(entries[1..], max);
      assert Scores(entries) == [entries[0].score] + Scores(entries[1..]);
      assert ZRemUpTo(entries, max) ==
        (if entries[0].score > max then [entries[0]] else []) + ZRemUpTo(entries[1..], max);
      assert entries[0].score > max ==>
        Scores([entries[0]] + ZRemUpTo(entries[1..], max)) == [entries[0].score] + Scores(ZRemUpTo(entries[1..], max));
    }
  }

  const COUNTER_MODULUS := 1_000_000

  function MemberOf(now: real, instance: string, nth: nat): Member {
    Member(now, instance, nth % COUNTER_MODULUS)
  }

  /** Two hits get the same member exactly when one instance made both, at
      the same time and a multiple of a million checks apart. */
  lemma MembersDistinct(t: real, u: real, instance: string, other: string, m: nat, n: nat)
    ensures MemberOf(t, instance, m) == MemberOf(u, other, n) <==>
      t == u && instance == other && (m - n) % COUNTER_MODULUS == 0
  {
    assert m == m / COUNTER_MODULUS * COUNTER_MODULUS + m % COUNTER_MODULUS;
    assert n == n / COUNTER_MODULUS * COUNTER_MODULUS + n % COUNTER_MODULUS;
  }

  lemma {:induction false} InsertGrows(entries: seq<Entry>, e: Entry)
    ensures |InsertByScore(entries, e)| == |entries| + 1
  {
    if entries == [] || entries[|entries| - 1].score <= e.score {
    } else {
      InsertGrows(entries[..|entries| - 1], e);
    }
  }

  lemma {:induction false} FilterLength<T>(s: seq<T>, p: T -> bool)
    ensures |Filter(s, p)| <= |s|
    ensures |Filter(s, p)| == |s| <==> forall x :: x in s ==> p(x)
  {
    if s == [] {
    } else {
      FilterLength(s[1..], p);
      assert s[0] in s && forall x :: x in s[1..] ==> x in s;
    }
  }

  /** A hit is counted exactly when its member is new: a repeated one
      replaces a hit recorded before. */
  lemma ZAddCounts(entries: seq<Entry>, score: real, member: Member)
    ensures |ZAdd(entries, score, member)| == |entries| + 1 <==> forall e :: e in entries ==> e.member != member
  {
    InsertGrows(Filter(entries, NotMember(member)), Entry(score, member));
    FilterLength(entries, NotMember(member));
  }

  // ----- key expiry -----

  function CeilMillis(seconds: real): int {
    -((-(seconds * 1000.0)).Floor)
  }

  /** `PEXPIRE key ceil(window * 1000) + 1000`, in seconds. */
  function Ttl(window: real): real {
    (CeilMillis(window) + 1000) as real / 1000.0
  }

  lemma TtlOutlivesWindow(window: real)
    ensures window + 1.0 <= Ttl(window) < window + 1.001
  {
  }

  // ----- the store and its relation to the complete log -----

  type Store = map<string, ZSet>

  function EntriesOf(store: Store, key: string): seq<Entry> {
    if key in store then store[key].entries else []
  }

  /** The Redis clock runs ahead of the callers' by `lag` to `lag + 1`
      seconds: the spare second of the expiry. */
  predicate ClocksAgree(now: real, serverNow: real, lag: real) {
    lag <= serverNow - now <= lag + 1.0
  }

  ghost predicate KeyStored(cfg: Config, log: Log, store: Store, clock: real, lag: real, used: set<Member>, k: string) {
    && Trimmed(Hits(log, k), Scores(EntriesOf(store, k)), cfg(k).window, clock)
    && (k in store ==> EntriesOk(store[k].entries, used, store[k].expireAt, lag + cfg(k).window + 1.0))
  }

  ghost predicate Stored(cfg: Config, log: Log, store: Store, clock: real, lag: real, used: set<Member>) {
    forall k {:trigger KeyStored(cfg, log, store, clock, lag, used, k)} :: KeyStored(cfg, log, store, clock, lag, used, k)
  }

  lemma StoredLater(cfg: Config, log: Log, store: Store, clock: real, lag: real, used: set<Member>, now: real)
    requires Stored(cfg, log, store, clock, lag, used) && clock <= now
    ensures Stored(cfg, log, store, now, lag, used)
  {
    forall k
      ensures KeyStored(cfg, log, store, now, lag, used, k)
    {
      assert KeyStored(cfg, log, store, clock, lag, used, k);
      TrimmedLive(Hits(log, k), Scores(EntriesOf(store, k)), cfg(k).window, clock, now);
    }
  }

  lemma ForgetExpired(hits: seq<real>, entries: seq<Entry>, window: real, clock: real)
    requires Trimmed(hits, Scores(entries), window, clock)
    requires forall e :: e in entries ==> e.score <= clock - window
    ensures Trimmed(hits, [], window, clock)
  {
  }

  function Unexpired(store: Store, serverNow: real): Store {
    map k | k in store && serverNow < store[k].expireAt :: store[k]
  }

  /** An expired key held no hit still inside its window. */
  lemma ExpiryForgetsNothing(cfg: Config, log: Log, store: Store, now: real, lag: real, used: set<Member>, serverNow: real)
    requires Stored(cfg, log, store, now, lag, used) && ClocksAgree(now, serverNow, lag)
    ensures Stored(cfg, log, Unexpired(store, serverNow), now, lag, used)
  {
    forall k
      ensures KeyStored(cfg, log, Unexpired(store, serverNow), now, lag, used, k)
    {
      assert KeyStored(cfg, log, store, now, lag, used, k);
      if k in store && serverNow >= store[k].expireAt {
        ForgetExpired(Hits(log, k), store[k].entries, cfg(k).window, now);
      }
    }
  }

  function Evicted(store: Store, key: string, max: real): Store {
    if key !in store then store
    else
      var kept := ZRemUpTo(store[key].entries, max);
      if kept == [] then store - {key} else store[key := ZSet(kept, store[key].expireAt)]
  }

  lemma EvictedScores(hits: seq<real>, entries: seq<Entry>, window: real, now: real)
    requires Sorted(hits) && Trimmed(hits, Scores(entries), window, now)
    ensures Scores(ZRemUpTo(entries, now - window)) == Live(hits, window, now)
    ensures Trimmed(hits, Scores(ZRemUpTo(entries, now - window)), window, now)
  {
    assert Scores(ZRemUpTo(entries, now - window)) == Live(hits, window, now) by {
      ZRemScores(entries, now - window);
      TrimmedLive(hits, Scores(entries), window, now, now);
    }
    LiveIsTrimmed(hits, window, now);
  }

  ghost predicate EntriesOk(entries: seq<Entry>, used: set<Member>, expireAt: real, margin: real) {
    forall e :: e in entries ==> e.member in used && expireAt >= e.score + margin
  }

  /** Eviction leaves the live hits of the key, in order. */
  lemma EvictKey(cfg: Config, log: Log, store: Store, now: real, lag: real, used: set<Member>, key: string, store': Store)
    requires Sorted(Hits(log, key)) && KeyStored(cfg, log, store, now, lag, used, key)
    requires store' == Evicted(store, key, now - cfg(key).window)
    ensures KeyStored(cfg, log, store', now, lag, used, key)
    ensures Scores(EntriesOf(store', key)) == Live(Hits(log, key), cfg(key).window, now)
  {
    var max := now - cfg(key).window;
    EvictedScores(Hits(log, key), EntriesOf(store, key), cfg(key).window, now);
    if key in store {
      var kept := ZRemUpTo(store[key].entries, max);
      FilterIn(store[key].entries, Newer(max));
      assert EntriesOk(kept, used, store[key].expireAt, lag + cfg(key).window + 1.0);
      assert EntriesOf(store', key) == kept;
    } else {
      assert ZRemUpTo(EntriesOf(store, key), max) == [];
    }
  }

  lemma OtherKey(cfg: Config, log: Log, store: Store, store': Store, clock: real, lag: real, used: set<Member>, k: string)
    requires KeyStored(cfg, log, store, clock, lag, used, k)
    requires (k in store <==> k in store') && (k in store ==> store[k] == store'[k])
    ensures KeyStored(cfg, log, store', clock, lag, used, k)
  {
  }

  lemma EvictAny(cfg: Config, log: Log, store: Store, now: real, lag: real, used: set<Member>, key: string, store': Store, k: string)
    requires Sorted(Hits(log, key)) && KeyStored(cfg, log, store, now, lag, used, k)
    requires store' == Evicted(store, key, now - cfg(key).window)
    ensures KeyStored(cfg, log, store', now, lag, used, k)
  {
    if k == key {
      EvictKey(cfg, log, store, now, lag, used, key, store');
    } else {
      OtherKey(cfg, log, store, store', now, lag, used, k);
    }
  }

  lemma EvictStored(cfg: Config, log: Log, store: Store, now: real, lag: real, used: set<Member>, key: string, store': Store)
    requires Sorted(Hits(log, key)) && Stored(cfg, log, store, now, lag, used)
    requires store' == Evicted(store, key, now - cfg(key).window)
    ensures Stored(cfg, log, store', now, lag, used)
  {
    forall k
      ensures KeyStored(cfg, log, store', now, lag, used, k)
    {
      assert KeyStored(cfg, log, store, now, lag, used, k);
      EvictAny(cfg, log, store, now, lag, used, key, store', k);
    }
  }

  lemma LiveIsTrimmed(hits: seq<real>, window: real, now: real)
    requires Sorted(hits)
    ensures Trimmed(hits, Live(hits, window, now), window, now)
  {
    var a := AfterIsSuffix(hits, now - window);
  }

  function WithHit(store: Store, key: string, window: real, now: real, member: Member, serverNow: real): Store {
    store[key := ZSet(ZAdd(EntriesOf(store, key), now, member), serverNow + Ttl(window))]
  }

  /** The store once the hit is in every bucket. */
  function Added(store: Store, buckets: seq<Bucket>, now: real, member: Member, serverNow: real): Store {
    if buckets == [] then store
    else
      var last := buckets[|buckets| - 1];
      WithHit(Added(store, buckets[..|buckets| - 1], now, member, serverNow), last.key, last.window, now, member, serverNow)
  }

  lemma WidenEntries(entries: seq<Entry>, used: set<Member>, used': set<Member>, expireAt: real, margin: real)
    requires EntriesOk(entries, used, expireAt, margin) && used <= used'
    ensures EntriesOk(entries, used', expireAt, margin)
  {
  }

  lemma {:induction false} AddedElsewhere(store: Store, buckets: seq<Bucket>, now: real, member: Member, serverNow: real, k: string)
    requires forall i :: 0 <= i < |buckets| ==> buckets[i].key != k
    ensures var next := Added(store, buckets, now, member, serverNow);
      (k in store <==> k in next) && (k in store ==> store[k] == next[k])
  {
    if buckets == [] {
    } else {
      AddedElsewhere(store, buckets[..|buckets| - 1], now, member, serverNow, k);
    }
  }

  lemma {:induction false} AddedAt(store: Store, buckets: seq<Bucket>, now: real, member: Member, serverNow: real, i: nat)
    requires i < |buckets| && forall j :: 0 <= j < |buckets| && j != i ==> buckets[j].key != buckets[i].key
    ensures var k, next := buckets[i].key, Added(store, buckets, now, member, serverNow);
      k in next && next[k] == ZSet(ZAdd(EntriesOf(store, k), now, member), serverNow + Ttl(buckets[i].window))
  {
    var last := |buckets| - 1;
    if i == last {
      AddedElsewhere(store, buckets[..last], now, member, serverNow, buckets[i].key);
    } else {
      AddedAt(store, buckets[..last], now, member, serverNow, i);
    }
  }

  lemma AddEntry(hits: seq<real>, entries: seq<Entry>, window: real, now: real, member: Member, used: set<Member>,
                 expireAt: real, margin: real)
    requires Trimmed(hits, Scores(entries), window, now) && member !in used
    requires EntriesOk(entries, used, expireAt, margin)
    requires forall t :: t in hits ==> t <= now
    ensures Trimmed(hits + [now], Scores(ZAdd(entries, now, member)), window, now)
    ensures EntriesOk(ZAdd(entries, now, member), used + {member}, now + margin, margin)
  {
    forall e | e in entries
      ensures e.member != member && e.score <= now
    {
      var i :| 0 <= i < |entries| && entries[i] == e;
      assert e.score == Scores(entries)[i] == hits[|hits| - |entries| + i];
      assert hits[|hits| - |entries| + i] in hits;
    }
    ZAddAppends(entries, now, member);
    assert Scores(entries + [Entry(now, member)]) == Scores(entries) + [now];
    TrimmedAppend(hits, Scores(entries), window, now);
  }

  /** A key the hit goes to. */
  lemma AddedIn(cfg: Config, log: Log, store: Store, b: Bucket, now: real, lag: real, used: set<Member>, member: Member,
                serverNow: real, log': Log, store': Store)
    requires Reads(cfg, b) && KeyStored(cfg, log, store, now, lag, used, b.key) && member !in used
    requires ClocksAgree(now, serverNow, lag) && forall t :: t in Hits(log, b.key) ==> t <= now
    requires Hits(log', b.key) == Hits(log, b.key) + [now]
    requires b.key in store'
    requires store'[b.key] == ZSet(ZAdd(EntriesOf(store, b.key), now, member), serverNow + Ttl(b.window))
    ensures KeyStored(cfg, log', store', now, lag, used + {member}, b.key)
  {
    var margin := lag + b.window + 1.0;
    TtlOutlivesWindow(b.window);
    AddEntry(Hits(log, b.key), EntriesOf(store, b.key), b.window, now, member, used,
             if b.key in store then store[b.key].expireAt else now + margin, margin);
  }

  lemma AddedKeyAt(cfg: Config, log: Log, store: Store, buckets: seq<Bucket>, i: nat, now: real, lag: real, used: set<Member>,
                   member: Member, serverNow: real, log': Log, store': Store)
    requires i < |buckets| && Reads(cfg, buckets[i]) && member !in used && ClocksAgree(now, serverNow, lag)
    requires forall j :: 0 <= j < |buckets| && j != i ==> buckets[j].key != buckets[i].key
    requires KeyStored(cfg, log, store, now, lag, used, buckets[i].key)
    requires forall t :: t in Hits(log, buckets[i].key) ==> t <= now
    requires Hits(log', buckets[i].key) == Hits(log, buckets[i].key) + [now]
    requires store' == Added(store, buckets, now, member, serverNow)
    ensures KeyStored(cfg, log', store', now, lag, used + {member}, buckets[i].key)
  {
    AddedAt(store, buckets, now, member, serverNow, i);
    AddedIn(cfg, log, store, buckets[i], now, lag, used, member, serverNow, log', store');
  }

  lemma AddedKeyElsewhere(cfg: Config, log: Log, store: Store, buckets: seq<Bucket>, now: real, lag: real, used: set<Member>,
                          member: Member, serverNow: real, log': Log, store': Store, k: string)
    requires forall i :: 0 <= i < |buckets| ==> buckets[i].key != k
    requires KeyStored(cfg, log, store, now, lag, used, k) && Hits(log', k) == Hits(log, k)
    requires store' == Added(store, buckets, now, member, serverNow)
    ensures KeyStored(cfg, log', store', now, lag, used + {member}, k)
  {
    AddedElsewhere(store, buckets, now, member, serverNow, k);
    assert used <= used + {member};
    if k in store {
      WidenEntries(store[k].entries, used, used + {member}, store[k].expireAt, lag + cfg(k).window + 1.0);
    }
  }

  lemma RecordedAt(cfg: Config, log: Log, buckets: seq<Bucket>, now: real, i: nat)
    requires CallOk(cfg, buckets) && WorstFull(log, buckets, now).None? && i < |buckets|
    ensures Hits(Record(log, buckets, now), buckets[i].key) == Hits(log, buckets[i].key) + [now]
    ensures Reads(cfg, buckets[i]) && forall j :: 0 <= j < |buckets| && j != i ==> buckets[j].key != buckets[i].key
  {
    RecordedHits(log, buckets, now, buckets[i].key);
  }

  lemma RecordedElsewhere(log: Log, buckets: seq<Bucket>, now: real, k: string)
    requires WorstFull(log, buckets, now).None? && forall i :: 0 <= i < |buckets| ==> buckets[i].key != k
    ensures Hits(Record(log, buckets, now), k) == Hits(log, k)
  {
    RecordedHits(log, buckets, now, k);
  }

  lemma AddedKey(cfg: Config, log: Log, store: Store, buckets: seq<Bucket>, now: real, lag: real, used: set<Member>,
                 member: Member, serverNow: real, log': Log, store': Store, k: string)
    requires CallOk(cfg, buckets) && WorstFull(log, buckets, now).None?
    requires KeyStored(cfg, log, store, now, lag, used, k) && member !in used && ClocksAgree(now, serverNow, lag)
    requires forall t :: t in Hits(log, k) ==> t <= now
    requires log' == Record(log, buckets, now) && store' == Added(store, buckets, now, member, serverNow)
    ensures KeyStored(cfg, log', store', now, lag, used + {member}, k)
  {
    if i :| 0 <= i < |buckets| && buckets[i].key == k {
      RecordedAt(cfg, log, buckets, now, i);
      AddedKeyAt(cfg, log, store, buckets, i, now, lag, used, member, serverNow, log', store');
    } else {
      RecordedElsewhere(log, buckets, now, k);
      AddedKeyElsewhere(cfg, log, store, buckets, now, lag, used, member, serverNow, log', store', k);
    }
  }

  lemma AddedStored(cfg: Config, log: Log, store: Store, buckets: seq<Bucket>, now: real, lag: real, used: set<Member>,
                    member: Member, serverNow: real, log': Log, store': Store, used': set<Member>)
    requires CallOk(cfg, buckets) && WorstFull(log, buckets, now).None? && LogOk(cfg, log, now)
    requires Stored(cfg, log, store, now, lag, used) && member !in used && ClocksAgree(now, serverNow, lag)
    requires log' == Record(log, buckets, now) && store' == Added(store, buckets, now, member, serverNow)
    requires used' == used + {member}
    ensures Stored(cfg, log', store', now, lag, used')
  {
    forall k
      ensures KeyStored(cfg, log', store', now, lag, used', k)
    {
      assert KeyStored(cfg, log, store, now, lag, used, k);
      assert KeyLogOk(cfg, log, now, k);
      AddedKey(cfg, log, store, buckets, now, lag, used, member, serverNow, log', store', k);
    }
  }

  function WorstResult(buckets: seq<Bucket>, worstRetry: real, worstIndex: nat): Option<Result>
    requires worstIndex <= |buckets|
  {
    if worstIndex == 0 then None else Some(Result(false, Some(worstRetry), Some(buckets[worstIndex - 1])))
  }

  lemma WorstStep(log: Log, buckets: seq<Bucket>, now: real, i: nat, worstRetry: real, worstIndex: nat)
    requires i < |buckets| && worstIndex <= i && (worstIndex == 0 ==> worstRetry == -1.0)
    requires Wait(log, buckets[i], now).Some? ==> Wait(log, buckets[i], now).value >= 0.0
    requires Refusal(log, buckets[..i], now) == WorstResult(buckets, worstRetry, worstIndex)
    ensures var wait := Wait(log, buckets[i], now);
      Refusal(log, buckets[..i + 1], now) ==
        if wait.Some? && wait.value > worstRetry then WorstResult(buckets, wait.value, i + 1)
        else WorstResult(buckets, worstRetry, worstIndex)
  {
    RefusalStep(log, buckets, now, i);
  }

  class RedisServer {
    var store: Store
    ghost const cfg: Config
    ghost const lag: real
    ghost var log: Log
    ghost var clock: real
    ghost var used: set<Member>

    ghost predicate Valid()
      reads this
    {
      LogOk(cfg, log, clock) && Stored(cfg, log, store, clock, lag, used)
    }

    constructor (ghost cfg: Config, ghost clock: real, ghost lag: real)
      ensures Valid() && this.cfg == cfg && this.lag == lag && log == map[] && this.clock == clock && used == {}
    {
      store := map[];
      this.cfg, this.lag, log, this.clock, used := cfg, lag, map[], clock, {};
      assert forall k {:trigger KeyLogOk(cfg, map[], clock, k)} :: KeyLogOk(cfg, map[], clock, k);
      assert forall k {:trigger KeyStored(cfg, map[], map[], clock, lag, {}, k)} :: KeyStored(cfg, map[], map[], clock, lag, {}, k);
    }

    /** One bucket of the script's first loop: evict, then count. */
    method EvictAndCount(bucket: Bucket, now: real) returns (live: seq<Entry>)
      requires Valid() && clock == now && Reads(cfg, bucket)
      modifies this`store
      ensures Valid() && Scores(live) == Live(Hits(log, bucket.key), bucket.window, now)
    {
      assert KeyLogOk(cfg, log, clock, bucket.key);
      ghost var next := Evicted(store, bucket.key, now - bucket.window);
      EvictStored(cfg, log, store, now, lag, used, bucket.key, next);
      EvictKey(cfg, log, store, now, lag, used, bucket.key, next) by {
        assert KeyStored(cfg, log, store, now, lag, used, bucket.key);
      }
      store := Evicted(store, bucket.key, now - bucket.window);
      live := EntriesOf(store, bucket.key);
    }

    /** What the script finds for one bucket: nothing, or its wait. */
    method ScriptWait(bucket: Bucket, now: real) returns (retry: Option<real>)
      requires Valid() && clock == now && Reads(cfg, bucket)
      modifies this`store
      ensures Valid() && retry == Wait(log, bucket, now)
      ensures retry.Some? ==> retry.value >= 0.0
    {
      var live := EvictAndCount(bucket, now);
      BucketWait(cfg, log, bucket, now, Scores(live));
      if |live| < bucket.limit {
        return None;
      }
      FullExactly(cfg, log, bucket, now);
      return Some(Clamp(live[0].score + bucket.window - now, bucket.window));
    }

    /** One turn of the script's first loop. */
    method NextWorst(now: real, buckets: seq<Bucket>, i: nat, retry: real, index: nat) returns (worstRetry: real, worstIndex: nat)
      requires Valid() && clock == now && i < |buckets| && Reads(cfg, buckets[i])
      requires index <= i && (index == 0 ==> retry == -1.0)
      requires Refusal(log, buckets[..i], now) == WorstResult(buckets, retry, index)
      modifies this`store
      ensures Valid() && worstIndex <= i + 1 && (worstIndex == 0 ==> worstRetry == -1.0)
      ensures Refusal(log, buckets[..i + 1], now) == WorstResult(buckets, worstRetry, worstIndex)
    {
      worstRetry, worstIndex := retry, index;
      var wait := ScriptWait(buckets[i], now);
      WorstStep(log, buckets, now, i, retry, index);
      if wait.Some? && wait.value > worstRetry {
        worstRetry, worstIndex := wait.value, i + 1;
      }
    }

    /** The script's first loop: the longest wait and its 1-based bucket. */
    method FindWorst(now: real, buckets: seq<Bucket>) returns (worstRetry: real, worstIndex: nat)
      requires Valid() && clock == now && CallOk(cfg, buckets)
      modifies this`store
      ensures Valid() && worstIndex <= |buckets|
      ensures Refusal(log, buckets, now) == WorstResult(buckets, worstRetry, worstIndex)
    {
      worstRetry, worstIndex := -1.0, 0;
      for i := 0 to |buckets|
        invariant Valid() && worstIndex <= i && (worstIndex == 0 ==> worstRetry == -1.0)
        invariant Refusal(log, buckets[..i], now) == WorstResult(buckets, worstRetry, worstIndex)
      {
        worstRetry, worstIndex := NextWorst(now, buckets, i, worstRetry, worstIndex);
      }
      assert buckets[..|buckets|] == buckets;
    }

    /** The script's second loop: the hit goes to every ZSET. */
    method AddHit(now: real, member: Member, buckets: seq<Bucket>, serverNow: real)
      modifies this`store
      ensures store == Added(old(store), buckets, now, member, serverNow)
    {
      for i := 0 to |buckets|
        invariant store == Added(old(store), buckets[..i], now, member, serverNow)
      {
        assert buckets[..i + 1][..i] == buckets[..i];
        store := WithHit(store, buckets[i].key, buckets[i].window, now, member, serverNow);
      }
      assert buckets[..|buckets|] == buckets;
    }

    /** `_CHECK_SCRIPT`, one atomic step of the server: expired keys are
        gone when it starts. */
    method RunScript(now: real, member: Member, buckets: seq<Bucket>, serverNow: real)
      returns (allowed: bool, retry: real, index: nat)
      requires Valid() && clock <= now && CallOk(cfg, buckets) && member !in used && ClocksAgree(now, serverNow, lag)
      modifies this
      ensures Valid() && clock == now && used == old(used) + {member}
      ensures index <= |buckets| && (allowed <==> index == 0)
      ensures Decide(old(log), buckets, now) ==
        if index == 0 then Result(true, None, None) else Result(false, Some(retry), Some(buckets[index - 1]))
      ensures log == Record(old(log), buckets, now)
    {
      Begin(now, serverNow);
      retry, index := FindWorst(now, buckets);
      allowed := index == 0;
      if allowed {
        RecordKeepsLogOk(cfg, log, now, buckets, now);
        CommitHit(now, member, buckets, serverNow);
      } else {
        WidenUsed(cfg, log, store, now, lag, used, used + {member});
        used := used + {member};
      }
    }

    /** Keys whose time is over are gone when the script starts. */
    method Begin(now: real, serverNow: real)
      requires Valid() && clock <= now && ClocksAgree(now, serverNow, lag)
      modifies this`store, this`clock
      ensures Valid() && clock == now && store == Unexpired(old(store), serverNow)
    {
      StoredLater(cfg, log, store, clock, lag, used, now);
      LogOkLater(cfg, log, clock, now);
      clock := now;
      ExpiryForgetsNothing(cfg, log, store, now, lag, used, serverNow);
      store := Unexpired(store, serverNow);
    }

    method CommitHit(now: real, member: Member, buckets: seq<Bucket>, serverNow: real)
      requires Valid() && clock == now && CallOk(cfg, buckets) && member !in used && ClocksAgree(now, serverNow, lag)
      requires WorstFull(log, buckets, now).None? && LogOk(cfg, Record(log, buckets, now), now)
      modifies this`store, this`log, this`used
      ensures Valid() && used == old(used) + {member} && log == Record(old(log), buckets, now)
      ensures store == Added(old(store), buckets, now, member, serverNow)
    {
      AddedStored(cfg, log, store, buckets, now, lag, used, member, serverNow, Record(log, buckets, now),
                  Added(store, buckets, now, member, serverNow), used + {member});
      AddHit(now, member, buckets, serverNow);
      log, used := Record(log, buckets, now), used + {member};
    }
  }

  lemma WidenKey(cfg: Config, log: Log, store: Store, clock: real, lag: real, used: set<Member>, used': set<Member>, k: string)
    requires KeyStored(cfg, log, store, clock, lag, used, k) && used <= used'
    ensures KeyStored(cfg, log, store, clock, lag, used', k)
  {
    if k in store {
      WidenEntries(store[k].entries, used, used', store[k].expireAt, lag + cfg(k).window + 1.0);
    }
  }

  lemma WidenUsed(cfg: Config, log: Log, store: Store, clock: real, lag: real, used: set<Member>, used': set<Member>)
    requires Stored(cfg, log, store, clock, lag, used) && used <= used'
    ensures Stored(cfg, log, store, clock, lag, used')
  {
    forall k
      ensures KeyStored(cfg, log, store, clock, lag, used', k)
    {
      assert KeyStored(cfg, log, store, clock, lag, used, k);
      WidenKey(cfg, log, store, clock, lag, used, used', k);
    }
  }

  /** One backend's limiter; several may share a server. */
  class RedisRateLimiter {
    const server: RedisServer
    const instance: string
    var counter: nat

    constructor (server: RedisServer, instance: string)
      ensures this.server == server && this.instance == instance && counter == 0
    {
      this.server, this.instance, counter := server, instance, 0;
    }

    /** `check`, the server reached: it answers as the complete log does. */
    method Check(now: real, buckets: seq<Bucket>, serverNow: real) returns (r: Result)
      requires server.Valid() && server.clock <= now && CallOk(server.cfg, buckets)
      requires ClocksAgree(now, serverNow, server.lag)
      requires buckets != [] ==> Member(now, instance, (counter + 1) % COUNTER_MODULUS) !in server.used
      modifies server, this`counter
      ensures server.Valid()
      ensures r == Decide(old(server.log), buckets, now)
      ensures server.log == Record(old(server.log), buckets, now)
      ensures buckets == [] ==> server.used == old(server.used) && server.clock == old(server.clock)
      ensures buckets != [] ==> server.used == old(server.used) + {Member(now, instance, counter)} && server.clock == now
      ensures counter == if buckets == [] then old(counter) else (old(counter) + 1) % COUNTER_MODULUS
    {
      if buckets == [] {
        RecordNothing(server.log, now);
        return Result(true, None, None);
      }
      counter := (counter + 1) % COUNTER_MODULUS;
      var allowed, retry, index := server.RunScript(now, Member(now, instance, counter), buckets, serverNow);
      if allowed {
        return Result(true, None, None);
      }
      // the index is in range, so the fallback to the first bucket is dead
      return Result(false, Some(retry), Some(buckets[index - 1]));
    }
  }

  // ----- agreement -----

  /** Which backend makes a call, and the server's time when it runs. */
  datatype Turn = Turn(which: nat, serverNow: real)

  /** How many of the first `n` calls were checks of backend `k` that reach
      the server. */
  function Checks(calls: seq<Call>, turns: seq<Turn>, k: nat, n: nat): nat
    requires n <= |calls| == |turns|
  {
    if n == 0 then 0
    else Checks(calls, turns, k, n - 1) + if turns[n - 1].which == k && calls[n - 1].buckets != [] then 1 else 0
  }

  /** The member of the i-th call. */
  function MemberAt(calls: seq<Call>, turns: seq<Turn>, instances: seq<string>, i: nat): Member
    requires i < |calls| == |turns| && turns[i].which < |instances|
  {
    MemberOf(calls[i].now, instances[turns[i].which], Checks(calls, turns, turns[i].which, i) + 1)
  }

  predicate Apart(calls: seq<Call>, turns: seq<Turn>, i: nat, j: nat)
    requires i < |calls| == |turns| && j < |calls|
  {
    calls[i].buckets != [] && calls[j].buckets != [] && turns[i].which == turns[j].which && calls[i].now == calls[j].now ==>
      (Checks(calls, turns, turns[i].which, i) - Checks(calls, turns, turns[j].which, j)) % COUNTER_MODULUS != 0
  }

  /** The backends have tokens of their own, and none makes two checks at
      one time that are a multiple of a million checks apart. */
  ghost predicate TurnsOk(calls: seq<Call>, turns: seq<Turn>, instances: seq<string>, lag: real) {
    && |turns| == |calls| && NoDup(instances)
    && (forall i :: 0 <= i < |calls| ==> turns[i].which < |instances| && ClocksAgree(calls[i].now, turns[i].serverNow, lag))
    && (forall i, j {:trigger Apart(calls, turns, i, j)} :: 0 <= i < j < |calls| ==> Apart(calls, turns, i, j))
  }

  /** Then no two checks share a member. */
  lemma MembersAtDistinct(calls: seq<Call>, turns: seq<Turn>, instances: seq<string>, lag: real, i: nat, j: nat)
    requires TurnsOk(calls, turns, instances, lag) && i < j < |calls| && calls[i].buckets != [] && calls[j].buckets != []
    ensures MemberAt(calls, turns, instances, i) != MemberAt(calls, turns, instances, j)
  {
    assert Apart(calls, turns, i, j);
    var a, b := turns[i].which, turns[j].which;
    var m, n := Checks(calls, turns, a, i), Checks(calls, turns, b, j);
    MembersDistinct(calls[i].now, calls[j].now, instances[a], instances[b], m + 1, n + 1);
  }

  ghost predicate UsedBy(used: set<Member>, calls: seq<Call>, turns: seq<Turn>, instances: seq<string>, n: nat)
    requires n <= |calls| == |turns| && forall i :: 0 <= i < |turns| ==> turns[i].which < |instances|
  {
    forall m :: m in used ==> exists i :: 0 <= i < n && calls[i].buckets != [] && m == MemberAt(calls, turns, instances, i)
  }

  lemma MemberIsNew(used: set<Member>, calls: seq<Call>, turns: seq<Turn>, instances: seq<string>, lag: real, n: nat)
    requires TurnsOk(calls, turns, instances, lag) && n < |calls| && calls[n].buckets != []
    requires UsedBy(used, calls, turns, instances, n)
    ensures MemberAt(calls, turns, instances, n) !in used
  {
    forall i | 0 <= i < n && calls[i].buckets != []
      ensures MemberAt(calls, turns, instances, i) != MemberAt(calls, turns, instances, n)
    {
      MembersAtDistinct(calls, turns, instances, lag, i, n);
    }
  }

  lemma UsedStep(used: set<Member>, used': set<Member>, calls: seq<Call>, turns: seq<Turn>, instances: seq<string>, n: nat)
    requires n < |calls| == |turns| && forall i :: 0 <= i < |turns| ==> turns[i].which < |instances|
    requires UsedBy(used, calls, turns, instances, n)
    requires used' == used + if calls[n].buckets == [] then {} else {MemberAt(calls, turns, instances, n)}
    ensures UsedBy(used', calls, turns, instances, n + 1)
  {
  }

  lemma CounterStep(c: nat)
    ensures (c % COUNTER_MODULUS + 1) % COUNTER_MODULUS == (c + 1) % COUNTER_MODULUS
  {
  }

  /** Each backend counted its checks among the first `n` calls. */
  ghost predicate Counted(backends: seq<RedisRateLimiter>, calls: seq<Call>, turns: seq<Turn>, n: nat)
    requires n <= |calls| == |turns|
    reads backends
  {
    forall k :: 0 <= k < |backends| ==> backends[k].counter == Checks(calls, turns, k, n) % COUNTER_MODULUS
  }

  predicate Backends(backends: seq<RedisRateLimiter>, server: RedisServer, instances: seq<string>) {
    && |backends| == |instances|
    && (forall k :: 0 <= k < |backends| ==> backends[k].server == server && backends[k].instance == instances[k])
    && (forall i, j :: 0 <= i < j < |backends| ==> backends[i] != backends[j])
  }

  /** The backends of one server. */
  method StartBackends(server: RedisServer, instances: seq<string>) returns (backends: seq<RedisRateLimiter>)
    ensures Backends(backends, server, instances) && fresh(backends)
    ensures forall k :: 0 <= k < |backends| ==> backends[k].counter == 0
  {
    backends := [];
    for n := 0 to |instances|
      invariant Backends(backends, server, instances[..n]) && fresh(backends)
      invariant forall k :: 0 <= k < n ==> backends[k].counter == 0
    {
      var backend := new RedisRateLimiter(server, instances[n]);
      backends := backends + [backend];
    }
  }

  /** Over every run of checks that several backends make on one server, the
      answers are those of the complete log. */
  method RunRedis(cfg: Config, clock: real, lag: real, calls: seq<Call>, turns: seq<Turn>, instances: seq<string>)
    returns (answers: seq<Result>)
    requires CallsOk(cfg, clock, calls) && TurnsOk(calls, turns, instances, lag)
    ensures answers == Answers(map[], calls)
  {
    var server := new RedisServer(cfg, clock, lag);
    var backends := StartBackends(server, instances);
    answers := [];
    for i := 0 to |calls|
      invariant server.Valid() && fresh(server) && server.cfg == cfg && server.lag == lag
      invariant i < |calls| ==> server.clock <= calls[i].now
      invariant UsedBy(server.used, calls, turns, instances, i)
      invariant fresh(backends) && Counted(backends, calls, turns, i)
      invariant answers == Answers(map[], calls[..i]) && server.log == LogAfter(map[], calls[..i])
    {
      assert calls[..i + 1][..i] == calls[..i];
      assert CallOk(cfg, calls[i].buckets) && (i + 1 < |calls| ==> calls[i].now <= calls[i + 1].now);
      ghost var used := server.used;
      if calls[i].buckets != [] {
        MemberIsNew(used, calls, turns, instances, lag, i);
      }
      var answer := NextCheck(backends, server, calls, turns, instances, i);
      UsedStep(used, server.used, calls, turns, instances, i);
      answers := answers + [answer];
    }
    assert calls[..|calls|] == calls;
  }

  /** The i-th check of a run. */
  method NextCheck(backends: seq<RedisRateLimiter>, server: RedisServer, calls: seq<Call>, turns: seq<Turn>, instances: seq<string>, i: nat)
    returns (answer: Result)
    requires i < |calls| == |turns| && turns[i].which < |instances| && Backends(backends, server, instances)
    requires Counted(backends, calls, turns, i)
    requires calls[i].buckets != [] ==> MemberAt(calls, turns, instances, i) !in server.used
    requires server.Valid() && server.clock <= calls[i].now && CallOk(server.cfg, calls[i].buckets)
    requires ClocksAgree(calls[i].now, turns[i].serverNow, server.lag)
    modifies server, backends
    ensures server.Valid() && server.clock <= calls[i].now && Counted(backends, calls, turns, i + 1)
    ensures server.used == old(server.used) + if calls[i].buckets == [] then {} else {MemberAt(calls, turns, instances, i)}
    ensures answer == Decide(old(server.log), calls[i].buckets, calls[i].now)
    ensures server.log == Record(old(server.log), calls[i].buckets, calls[i].now)
  {
    var k, b := turns[i].which, calls[i].buckets;
    CounterStep(Checks(calls, turns, k, i));
    answer := backends[k].Check(calls[i].now, b, turns[i].serverNow);
  }

  /** Both limiters give the same answers over every run of calls: the same
      decisions, waits and refusing buckets. */
  method LimitersAgree(cfg: Config, clock: real, lag: real, calls: seq<Call>, turns: seq<Turn>, instances: seq<string>)
    returns (inProcess: seq<Result>, redis: seq<Result>)
    requires CallsOk(cfg, clock, calls) && TurnsOk(calls, turns, instances, lag)
    ensures inProcess == redis == Answers(map[], calls)
  {
    var limiter := new InProcessRateLimiter(cfg, clock);
    inProcess := limiter.Run(calls);
    redis := RunRedis(cfg, clock, lag, calls, turns, instances);
  }
}
