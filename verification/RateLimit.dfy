/** The sliding-window contract both rate limiters follow, stated over the
    complete log of admitted hits, which is never shortened. */
module RateLimit {
  import opened Common

  datatype Bucket = Bucket(key: string, limit: int, window: real)

  datatype Result = Result(allowed: bool, retryAfter: Option<real>, exceeded: Option<Bucket>)

  /** Every admitted hit of every key, oldest first. */
  type Log = map<string, seq<real>>

  datatype Limits = Limits(limit: int, window: real)

  /** The fixed limit and window of each key. */
  type Config = string -> Limits

  /** What the limiters ask of one call: distinct keys, each with its own
      fixed limit (at least 1) and window. */
  ghost predicate CallOk(cfg: Config, buckets: seq<Bucket>) {
    && (forall i :: 0 <= i < |buckets| ==> buckets[i].limit >= 1 && Limits(buckets[i].limit, buckets[i].window) == cfg(buckets[i].key))
    && (forall i, j :: 0 <= i < j < |buckets| ==> buckets[i].key != buckets[j].key)
  }

  function Hits(log: Log, key: string): seq<real> {
    if key in log then log[key] else []
  }

  function After(lo: real): real -> bool {
    t => t > lo
  }

  function Within(lo: real, hi: real): real -> bool {
    t => lo < t <= hi
  }

  /** The hits in (now - window, ..]. */
  function Live(hits: seq<real>, window: real, now: real): seq<real> {
    Filter(hits, After(now - window))
  }

  predicate Full(log: Log, b: Bucket, now: real) {
    b.limit >= 1 && |Live(Hits(log, b.key), b.window, now)| >= b.limit
  }

  /** How long until the oldest live hit of a full bucket ages out. */
  function Wait(log: Log, b: Bucket, now: real): Option<real> {
    if Full(log, b, now) then Some(Live(Hits(log, b.key), b.window, now)[0] + b.window - now) else None
  }

  function Waits(log: Log, buckets: seq<Bucket>, now: real): seq<Option<real>> {
    seq(|buckets|, i requires 0 <= i < |buckets| => Wait(log, buckets[i], now))
  }

  /** The first of the longest waits. */
  function FirstLongest(ws: seq<Option<real>>): (w: Option<nat>)
    ensures w.None? <==> forall i :: 0 <= i < |ws| ==> ws[i].None?
    ensures w.Some? ==> w.value < |ws| && ws[w.value].Some?
    ensures w.Some? ==> forall i :: 0 <= i < |ws| && ws[i].Some? ==> ws[i].value <= ws[w.value].value
    ensures w.Some? ==> forall i :: 0 <= i < w.value && ws[i].Some? ==> ws[i].value < ws[w.value].value
  {
    if ws == [] then None
    else
      var last := |ws| - 1;
      var w := FirstLongest(ws[..last]);
      assert forall i :: 0 <= i < last ==> ws[..last][i] == ws[i];
      if ws[last].Some? && (w.None? || ws[last].value > ws[w.value].value) then Some(last) else w
  }

  /** The first full bucket with the longest wait. */
  function WorstFull(log: Log, buckets: seq<Bucket>, now: real): (w: Option<nat>)
    ensures w.None? <==> forall i :: 0 <= i < |buckets| ==> !Full(log, buckets[i], now)
    ensures w.Some? ==> w.value < |buckets| && Full(log, buckets[w.value], now)
  {
    var ws := Waits(log, buckets, now);
    assert forall i :: 0 <= i < |buckets| ==> (ws[i].Some? <==> Full(log, buckets[i], now));
    FirstLongest(ws)
  }

  function Decide(log: Log, buckets: seq<Bucket>, now: real): Result {
    match WorstFull(log, buckets, now)
    case None => Result(true, None, None)
    case Some(i) => Result(false, Wait(log, buckets[i], now), Some(buckets[i]))
  }

  function Keys(buckets: seq<Bucket>): set<string> {
    set b | b in buckets :: b.key
  }

  /** An admitted hit goes to every bucket, a refused one to none. */
  function Record(log: Log, buckets: seq<Bucket>, now: real): Log {
    if WorstFull(log, buckets, now).Some? then log
    else map k | k in log.Keys + Keys(buckets) :: Hits(log, k) + if k in Keys(buckets) then [now] else []
  }

  lemma RecordedHits(log: Log, buckets: seq<Bucket>, now: real, k: string)
    requires WorstFull(log, buckets, now).None?
    ensures Hits(Record(log, buckets, now), k) == if k in Keys(buckets) then Hits(log, k) + [now] else Hits(log, k)
  {
  }

  lemma RecordNothing(log: Log, now: real)
    ensures Record(log, [], now) == log
  {
    assert forall k :: k in log ==> Hits(log, k) + [] == log[k];
  }

  // ----- what every reachable log satisfies -----

  ghost predicate Sorted(hits: seq<real>) {
    forall i, j :: 0 <= i < j < |hits| ==> hits[i] <= hits[j]
  }

  /** Any `limit + 1` hits span at least one window. */
  ghost predicate Spaced(hits: seq<real>, l: Limits)
    requires l.limit >= 1
  {
    forall i, j :: 0 <= i && i + l.limit <= j < |hits| ==> hits[i] + l.window <= hits[j]
  }

  ghost predicate HitsOk(l: Limits, hits: seq<real>, clock: real) {
    && Sorted(hits) && (forall t :: t in hits ==> t <= clock)
    && (hits != [] ==> l.limit >= 1) && (l.limit >= 1 ==> Spaced(hits, l))
  }

  ghost predicate KeyLogOk(cfg: Config, log: Log, clock: real, k: string) {
    HitsOk(cfg(k), Hits(log, k), clock)
  }

  ghost predicate LogOk(cfg: Config, log: Log, clock: real) {
    forall k {:trigger KeyLogOk(cfg, log, clock, k)} :: KeyLogOk(cfg, log, clock, k)
  }

  lemma LogOkLater(cfg: Config, log: Log, clock: real, now: real)
    requires LogOk(cfg, log, clock) && clock <= now
    ensures LogOk(cfg, log, now)
  {
    forall k
      ensures KeyLogOk(cfg, log, now, k)
    {
      assert KeyLogOk(cfg, log, clock, k);
    }
  }

  /** On sorted hits the live ones are a suffix. */
  lemma {:induction false} AfterIsSuffix(hits: seq<real>, lo: real) returns (a: nat)
    requires Sorted(hits)
    ensures a <= |hits| && Filter(hits, After(lo)) == hits[a..]
    ensures forall i :: 0 <= i < a ==> hits[i] <= lo
    ensures forall i :: a <= i < |hits| ==> hits[i] > lo
    ensures a < |hits| ==> hits[a] > lo
  {
    if hits == [] {
      a := 0;
    } else if hits[0] > lo {
      a := 0;
      assert forall i :: 0 <= i < |hits| ==> hits[0] <= hits[i];
      FilterAll(hits, After(lo));
    } else {
      assert forall i :: 0 < i < |hits| ==> hits[i] == hits[1..][i - 1];
      a := AfterIsSuffix(hits[1..], lo);
      a := a + 1;
    }
  }

  /** On sorted hits a window is a slice. */
  lemma WithinIsSlice(hits: seq<real>, lo: real, hi: real) returns (a: nat, b: nat)
    requires Sorted(hits) && lo <= hi
    ensures a <= b <= |hits| && Filter(hits, Within(lo, hi)) == hits[a..b]
    ensures a < b ==> lo < hits[a] && hits[b - 1] <= hi
  {
    b := AfterIsSuffix(hits, hi);
    a := AfterIsSuffix(hits[..b], lo);
    assert hits == hits[..b] + hits[b..];
    FilterAppend(hits[..b], hits[b..], Within(lo, hi));
    FilterNone(hits[b..], Within(lo, hi));
    FilterSame(hits[..b], Within(lo, hi), After(lo));
  }

  lemma LastNotLater(hits: seq<real>, clock: real)
    requires hits != [] && forall t :: t in hits ==> t <= clock
    ensures hits[|hits| - 1] <= clock
  {
    assert hits[|hits| - 1] in hits;
  }

  lemma AppendSorted(hits: seq<real>, clock: real, now: real)
    requires Sorted(hits) && clock <= now && forall t :: t in hits ==> t <= clock
    ensures Sorted(hits + [now]) && forall t :: t in hits + [now] ==> t <= now
  {
    if hits != [] {
      LastNotLater(hits, clock);
    }
  }

  lemma RecordHit(l: Limits, hits: seq<real>, clock: real, now: real)
    requires HitsOk(l, hits, clock) && clock <= now && l.limit >= 1
    requires |Live(hits, l.window, now)| < l.limit
    ensures HitsOk(l, hits + [now], now)
  {
    var a := AfterIsSuffix(hits, now - l.window);
    AppendSorted(hits, clock, now);
    AppendSpaced(l, hits, a, now);
  }

  lemma AppendSpaced(l: Limits, hits: seq<real>, a: nat, now: real)
    requires l.limit >= 1 && Spaced(hits, l) && |hits| - l.limit < a <= |hits|
    requires forall i :: 0 <= i < a ==> hits[i] <= now - l.window
    ensures Spaced(hits + [now], l)
  {
  }

  lemma RecordKeepsLogOk(cfg: Config, log: Log, clock: real, buckets: seq<Bucket>, now: real)
    requires LogOk(cfg, log, clock) && clock <= now && CallOk(cfg, buckets)
    ensures LogOk(cfg, Record(log, buckets, now), now)
  {
    var log' := Record(log, buckets, now);
    forall k
      ensures KeyLogOk(cfg, log', now, k)
    {
      assert KeyLogOk(cfg, log, clock, k);
      if WorstFull(log, buckets, now).None? && k in Keys(buckets) {
        var i :| 0 <= i < |buckets| && buckets[i].key == k;
        assert !Full(log, buckets[i], now);
        RecordHit(cfg(k), Hits(log, k), clock, now);
      } else {
        assert Hits(log', k) == Hits(log, k);
      }
    }
  }

  /** Within any span of one window, wherever it ends, a key admits at
      most `limit` hits. */
  lemma WindowBound(cfg: Config, log: Log, clock: real, k: string, t: real)
    requires LogOk(cfg, log, clock) && cfg(k).limit >= 1 && cfg(k).window >= 0.0
    ensures |Filter(Hits(log, k), Within(t - cfg(k).window, t))| <= cfg(k).limit
  {
    assert KeyLogOk(cfg, log, clock, k);
    var a, b := WithinIsSlice(Hits(log, k), t - cfg(k).window, t);
  }

  // ----- retry_after -----

  ghost predicate Reads(cfg: Config, b: Bucket) {
    b.limit >= 1 && Limits(b.limit, b.window) == cfg(b.key)
  }

  /** Spaced hits never hold more than `limit` live ones. */
  lemma AtMostLimitLive(l: Limits, hits: seq<real>, now: real, a: nat)
    requires l.limit >= 1 && Spaced(hits, l) && a <= |hits| && (hits != [] ==> hits[|hits| - 1] <= now)
    requires forall i :: a <= i < |hits| ==> hits[i] > now - l.window
    ensures |hits| - a <= l.limit
  {
    if |hits| > l.limit {
      var i := |hits| - 1 - l.limit;
      assert hits[i] + l.window <= hits[|hits| - 1];
    }
  }

  lemma LiveWhenFull(l: Limits, hits: seq<real>, now: real)
    requires HitsOk(l, hits, now) && l.limit >= 1 && |Live(hits, l.window, now)| >= l.limit
    ensures |hits| >= l.limit && Live(hits, l.window, now) == hits[|hits| - l.limit..]
    ensures now - l.window < hits[|hits| - l.limit] <= now
  {
    var a := AfterIsSuffix(hits, now - l.window);
    LastNotLater(hits, now);
    AtMostLimitLive(l, hits, now, a);
    assert hits[a] in hits;
  }

  /** On a reachable log a full bucket holds exactly `limit` live hits. */
  lemma FullExactly(cfg: Config, log: Log, b: Bucket, now: real)
    requires LogOk(cfg, log, now) && Reads(cfg, b) && Full(log, b, now)
    ensures var hits := Hits(log, b.key);
      && |hits| >= b.limit && Live(hits, b.window, now) == hits[|hits| - b.limit..]
      && Wait(log, b, now) == Some(hits[|hits| - b.limit] + b.window - now)
      && 0.0 < Wait(log, b, now).value <= b.window
  {
    assert KeyLogOk(cfg, log, now, b.key);
    LiveWhenFull(cfg(b.key), Hits(log, b.key), now);
  }

  lemma FullUntilWait(cfg: Config, log: Log, b: Bucket, now: real, later: real)
    requires LogOk(cfg, log, now) && Reads(cfg, b) && now <= later
    ensures Full(log, b, later) <==> Full(log, b, now) && later < now + Wait(log, b, now).value
  {
    var hits := Hits(log, b.key);
    assert KeyLogOk(cfg, log, now, b.key);
    var c := AfterIsSuffix(hits, later - b.window);
    var a := AfterIsSuffix(hits, now - b.window);
    assert c < |hits| ==> hits[c] > now - b.window;
    if Full(log, b, now) {
      FullExactly(cfg, log, b, now);
      assert a == |hits| - b.limit;
    }
  }

  /** `retry_after` is exact. A call refused at `now` is refused at every
      later time before `now + retry_after`, and admitted from that time
      on, when nothing else is admitted in between. */
  lemma RetryAfterExact(cfg: Config, log: Log, buckets: seq<Bucket>, now: real)
    requires LogOk(cfg, log, now) && CallOk(cfg, buckets) && !Decide(log, buckets, now).allowed
    ensures Record(log, buckets, now) == log
    ensures var r := Decide(log, buckets, now);
      && 0.0 < r.retryAfter.value <= r.exceeded.value.window
      && (forall later :: now <= later ==> (Decide(log, buckets, later).allowed <==> later >= now + r.retryAfter.value))
  {
    var r := Decide(log, buckets, now);
    var w := WorstFull(log, buckets, now).value;
    var ws := Waits(log, buckets, now);
    assert forall i :: 0 <= i < |buckets| ==> Reads(cfg, buckets[i]) && ws[i] == Wait(log, buckets[i], now);
    FullExactly(cfg, log, buckets[w], now);
    forall later | now <= later
      ensures Decide(log, buckets, later).allowed <==> later >= now + r.retryAfter.value
    {
      forall i | 0 <= i < |buckets|
        ensures Full(log, buckets[i], later) <==> ws[i].Some? && later < now + ws[i].value
      {
        FullUntilWait(cfg, log, buckets[i], now, later);
      }
      assert Full(log, buckets[w], later) <==> later < now + r.retryAfter.value;
    }
  }

  // ----- the loop over the buckets that both limiters run -----

  /** `min(window, max(0, retry))` */
  function Clamp(retry: real, window: real): real {
    var r := if retry > 0.0 then retry else 0.0;
    if r < window then r else window
  }

  /** Whatever the clock does, a wait lies between 0 and the window. */
  lemma ClampInRange(retry: real, window: real)
    requires window >= 0.0
    ensures 0.0 <= Clamp(retry, window) <= window
    ensures 0.0 <= retry <= window ==> Clamp(retry, window) == retry
  {
  }

  /** The wait of a bucket read off its live hits; the clamp changes
      nothing on a reachable log. */
  lemma BucketWait(cfg: Config, log: Log, b: Bucket, now: real, live: seq<real>)
    requires LogOk(cfg, log, now) && Reads(cfg, b) && live == Live(Hits(log, b.key), b.window, now)
    ensures Wait(log, b, now) == if |live| < b.limit then None else Some(Clamp(live[0] + b.window - now, b.window))
  {
    if |live| >= b.limit {
      FullExactly(cfg, log, b, now);
    }
  }

  /** The refusal found among some buckets. */
  function Refusal(log: Log, buckets: seq<Bucket>, now: real): Option<Result> {
    if WorstFull(log, buckets, now).None? then None else Some(Decide(log, buckets, now))
  }

  /** One more bucket: a strictly longer wait takes over. */
  lemma RefusalStep(log: Log, buckets: seq<Bucket>, now: real, i: nat)
    requires i < |buckets|
    ensures var r, wait := Refusal(log, buckets[..i], now), Wait(log, buckets[i], now);
      && (r.Some? ==> r.value.retryAfter.Some?)
      && Refusal(log, buckets[..i + 1], now) ==
           if wait.Some? && (r.None? || wait.value > r.value.retryAfter.value)
           then Some(Result(false, wait, Some(buckets[i]))) else r
  {
    var ws := Waits(log, buckets[..i + 1], now);
    assert |ws| == i + 1 && ws[i] == Wait(log, buckets[i], now);
    assert ws[..i] == Waits(log, buckets[..i], now);
  }

  // ----- runs -----

  datatype Call = Call(now: real, buckets: seq<Bucket>)

  ghost predicate CallsOk(cfg: Config, clock: real, calls: seq<Call>) {
    && (forall i :: 0 <= i < |calls| ==> CallOk(cfg, calls[i].buckets) && clock <= calls[i].now)
    && (forall i, j :: 0 <= i < j < |calls| ==> calls[i].now <= calls[j].now)
  }

  /** The log after a run of calls, and the answer to each. */
  function LogAfter(log: Log, calls: seq<Call>): Log {
    if calls == [] then log
    else
      var last := |calls| - 1;
      var before := LogAfter(log, calls[..last]);
      Record(before, calls[last].buckets, calls[last].now)
  }

  function Answers(log: Log, calls: seq<Call>): (r: seq<Result>)
    ensures |r| == |calls|
  {
    if calls == [] then []
    else
      var last := |calls| - 1;
      Answers(log, calls[..last]) + [Decide(LogAfter(log, calls[..last]), calls[last].buckets, calls[last].now)]
  }

  function LastClock(clock: real, calls: seq<Call>): real {
    if calls == [] then clock else calls[|calls| - 1].now
  }

  lemma CallsOkPrefix(cfg: Config, clock: real, calls: seq<Call>)
    requires CallsOk(cfg, clock, calls) && calls != []
    ensures var last := |calls| - 1;
      && CallsOk(cfg, clock, calls[..last]) && CallOk(cfg, calls[last].buckets)
      && LastClock(clock, calls[..last]) <= calls[last].now
  {
  }

  lemma {:induction false} RunKeepsLogOk(cfg: Config, log: Log, clock: real, calls: seq<Call>)
    requires LogOk(cfg, log, clock) && CallsOk(cfg, clock, calls)
    ensures LogOk(cfg, LogAfter(log, calls), LastClock(clock, calls))
    decreases |calls|
  {
    if calls == [] {
    } else {
      var last := |calls| - 1;
      CallsOkPrefix(cfg, clock, calls);
      RunKeepsLogOk(cfg, log, clock, calls[..last]);
      RecordKeepsLogOk(cfg, LogAfter(log, calls[..last]), LastClock(clock, calls[..last]), calls[last].buckets, calls[last].now);
    }
  }

  /** Over a whole run from an empty limiter, every span of one window
      admits at most `limit` hits of a key. */
  lemma SlidingWindowBound(cfg: Config, clock: real, calls: seq<Call>, k: string, t: real)
    requires CallsOk(cfg, clock, calls) && cfg(k).limit >= 1 && cfg(k).window >= 0.0
    ensures |Filter(Hits(LogAfter(map[], calls), k), Within(t - cfg(k).window, t))| <= cfg(k).limit
  {
    assert forall k' {:trigger KeyLogOk(cfg, map[], clock, k')} :: KeyLogOk(cfg, map[], clock, k');
    RunKeepsLogOk(cfg, map[], clock, calls);
    WindowBound(cfg, LogAfter(map[], calls), LastClock(clock, calls), k, t);
  }
}
