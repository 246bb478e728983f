/** The Mongo TTL lock: `acquire` and `release` as atomic steps of several
    processes on one lock document, with a clock and the TTL reaper. */
module DistributedLock {
  import opened Common

  datatype Doc = Doc(holder: string, expires: real)

  /** Where a process is in `acquire`. `expires` is the expiry it computed
      at its start, `seen` the expiry its upsert returned. */
  datatype Pc =
    | Idle
    | Upserting(expires: real)
    | Refreshing(seen: real, expires: real)
    | Checking(other: string, seen: real, expires: real)
    | Taking(other: string, seen: real, expires: real)

  /** `claim`: the expiry of the lease `acquire` reported, until released. */
  datatype Proc = Proc(pc: Pc, claim: Option<real>)

  datatype State = State(now: real, doc: Option<Doc>, procs: map<string, Proc>)
  {
    function At(p: string): Proc {
      if p in procs then procs[p] else Proc(Idle, None)
    }

    function Set(p: string, proc: Proc): State {
      this.(procs := procs[p := proc])
    }

    predicate HeldBy(p: string) {
      doc.Some? && doc.value.holder == p
    }

    /** `p` holds a lease that is not released and not expired. */
    predicate Live(p: string) {
      At(p).claim.Some? && now < At(p).claim.value
    }
  }

  datatype Step =
    | Tick(seconds: real)
    | Reap
    | Begin(p: string, ttl: real)
    | Upsert(p: string)
    | Refresh(p: string)
    | Check(p: string)
    | Take(p: string)
    | Release(p: string)

  predicate Enabled(s: State, e: Step) {
    match e
    case Tick(seconds) => seconds >= 0.0
    case Reap => s.doc.Some? && s.doc.value.expires <= s.now
    case Begin(p, _) => s.At(p).pc.Idle?
    case Upsert(p) => s.At(p).pc.Upserting?
    case Refresh(p) => s.At(p).pc.Refreshing?
    case Check(p) => s.At(p).pc.Checking?
    case Take(p) => s.At(p).pc.Taking?
    case Release(p) => s.At(p).pc.Idle?
  }

  function Apply(s: State, e: Step): State
    requires Enabled(s, e)
  {
    match e
    case Tick(seconds) => s.(now := s.now + seconds)
    case Reap => s.(doc := None)
    case Begin(p, ttl) => s.Set(p, s.At(p).(pc := Upserting(s.now + ttl)))
    case Upsert(p) =>
      // find_one_and_update with $setOnInsert, upsert
      var me := s.At(p);
      if s.doc.None? then
        s.(doc := Some(Doc(p, me.pc.expires))).Set(p, me.(pc := Refreshing(me.pc.expires, me.pc.expires)))
      else if s.doc.value.holder == p then
        s.Set(p, me.(pc := Refreshing(s.doc.value.expires, me.pc.expires)))
      else
        s.Set(p, me.(pc := Checking(s.doc.value.holder, s.doc.value.expires, me.pc.expires)))
    case Refresh(p) =>
      // update_one on (_id, own holder); its result is ignored
      var me := s.At(p);
      var s' := if s.HeldBy(p) then s.(doc := Some(Doc(p, me.pc.expires))) else s;
      s'.Set(p, Proc(Idle, Some(me.pc.expires)))
    case Check(p) =>
      var me := s.At(p);
      s.Set(p, me.(pc := if me.pc.seen < s.now then Taking(me.pc.other, me.pc.seen, me.pc.expires) else Idle))
    case Take(p) =>
      // find_one_and_update on (_id, the holder read)
      var me := s.At(p);
      if s.HeldBy(me.pc.other) then
        s.(doc := Some(Doc(p, me.pc.expires))).Set(p, Proc(Idle, Some(me.pc.expires)))
      else s.Set(p, me.(pc := Idle))
    case Release(p) =>
      var s' := if s.HeldBy(p) then s.(doc := None) else s;
      s'.Set(p, s.At(p).(claim := None))
  }

  // ----- runs -----

  predicate CanRun(s: State, run: seq<Step>)
    decreases |run|
  {
    run == [] || (Enabled(s, run[0]) && CanRun(Apply(s, run[0]), run[1..]))
  }

  function After(s: State, run: seq<Step>): State
    requires CanRun(s, run)
    decreases |run|
  {
    if run == [] then s else After(Apply(s, run[0]), run[1..])
  }

  /** `ok` holds of every step of the run, in the state it is taken in. */
  predicate AllSteps(s: State, run: seq<Step>, ok: (State, Step) -> bool)
    requires CanRun(s, run)
    decreases |run|
  {
    run == [] || (ok(s, run[0]) && AllSteps(Apply(s, run[0]), run[1..], ok))
  }

  /** At most one process holds a live lease. */
  ghost predicate MutuallyExclusive(s: State) {
    forall p, q :: s.Live(p) && s.Live(q) ==> p == q
  }

  /** A live lease is the document, holder and expiry. */
  ghost predicate LeasesMatch(s: State) {
    forall p :: s.Live(p) ==> s.doc == Some(Doc(p, s.At(p).claim.value))
  }

  /** What a process remembers of its reads. */
  ghost predicate PcsOk(s: State) {
    forall p {:trigger s.At(p)} ::
      && (s.At(p).pc.Checking? ==> s.At(p).pc.other != p)
      && (s.At(p).pc.Taking? ==> s.At(p).pc.other != p && s.At(p).pc.seen < s.now)
  }

  ghost predicate Inv(s: State) {
    LeasesMatch(s) && PcsOk(s)
  }

  lemma InvExcludes(s: State)
    requires Inv(s)
    ensures MutuallyExclusive(s)
  {
  }

  // ----- the hypotheses -----

  /** A force-take that matches replaces the very document it read. */
  predicate TakesWhatItRead(s: State, e: Step) {
    e.Take? && s.At(e.p).pc.Taking? && s.HeldBy(s.At(e.p).pc.other) ==> s.doc.value.expires == s.At(e.p).pc.seen
  }

  /** A refresh finds its own document. */
  predicate RefreshMatches(s: State, e: Step) {
    e.Refresh? ==> s.HeldBy(e.p)
  }

  /** A refresh runs before the document its upsert returned expires. */
  predicate RefreshInTime(s: State, e: Step) {
    e.Refresh? && s.At(e.p).pc.Refreshing? ==> s.now < s.At(e.p).pc.seen
  }

  predicate RefreshMatchesInTime(s: State, e: Step) {
    RefreshMatches(s, e) && RefreshInTime(s, e)
  }

  /** What a step must not do: report a lease without its document, or
      replace the document of a live lease. */
  predicate StepSafe(s: State, e: Step) {
    match e
    case Refresh(p) => s.HeldBy(p) || (s.At(p).pc.Refreshing? ==> s.At(p).pc.expires <= s.now)
    case Take(p) => s.At(p).pc.Taking? && s.HeldBy(s.At(p).pc.other) ==> !s.Live(s.At(p).pc.other)
    case _ => true
  }

  /** Exactly the safe steps keep every live lease equal to the document. */
  lemma StepKeepsInvIff(s: State, e: Step)
    requires Inv(s) && Enabled(s, e)
    ensures Inv(Apply(s, e)) <==> StepSafe(s, e)
  {
    var t := Apply(s, e);
    assert PcsOk(t) by {
      forall p
        ensures t.At(p).pc.Checking? ==> t.At(p).pc.other != p
        ensures t.At(p).pc.Taking? ==> t.At(p).pc.other != p && t.At(p).pc.seen < t.now
      {
        assert s.At(p).pc.Checking? ==> s.At(p).pc.other != p;
      }
    }
    if StepSafe(s, e) {
      forall p | t.Live(p)
        ensures t.doc == Some(Doc(p, t.At(p).claim.value))
      {
        if s.Live(p) {
          assert s.doc == Some(Doc(p, s.At(p).claim.value));
        }
      }
    } else if e.Refresh? {
      assert t.Live(e.p) && t.doc == s.doc;
    } else {
      var other := s.At(e.p).pc.other;
      assert other != e.p;
      assert t.Live(other) && t.doc.value.holder == e.p;
    }
  }

  ghost predicate InvAlong(s: State, run: seq<Step>)
    requires CanRun(s, run)
    decreases |run|
  {
    Inv(s) && (run == [] || InvAlong(Apply(s, run[0]), run[1..]))
  }

  /** Over a whole run, every live lease is the document throughout exactly
      when every step is safe. */
  lemma {:induction false} RunKeepsInvIff(s: State, run: seq<Step>)
    requires Inv(s) && CanRun(s, run)
    ensures InvAlong(s, run) <==> AllSteps(s, run, StepSafe)
    decreases |run|
  {
    if run == [] {
    } else {
      StepKeepsInvIff(s, run[0]);
      if StepSafe(s, run[0]) {
        RunKeepsInvIff(Apply(s, run[0]), run[1..]);
      } else {
        assert !Inv(Apply(s, run[0]));
      }
    }
  }

  // ----- exclusion itself, step by step -----

  /** The step gives `e.p` a live lease. */
  predicate Grants(s: State, e: Step) {
    match e
    case Refresh(p) => s.At(p).pc.Refreshing? && s.now < s.At(p).pc.expires
    case Take(p) => s.At(p).pc.Taking? && s.HeldBy(s.At(p).pc.other) && s.now < s.At(p).pc.expires
    case _ => false
  }

  /** A lease is given only while no other process holds a live one. */
  predicate GrantsAlone(s: State, e: Step) {
    Grants(s, e) ==> forall q :: q in s.procs && q != e.p ==> !s.Live(q)
  }

  /** From any state in which leases exclude each other, exactly such steps
      keep it so. */
  lemma StepKeepsExclusionIff(s: State, e: Step)
    requires MutuallyExclusive(s) && Enabled(s, e)
    ensures MutuallyExclusive(Apply(s, e)) <==> GrantsAlone(s, e)
  {
    var t := Apply(s, e);
    if Grants(s, e) {
      assert t.Live(e.p) && forall q :: q != e.p ==> (t.Live(q) <==> s.Live(q));
    } else {
      assert forall q :: t.Live(q) ==> s.Live(q);
    }
  }

  ghost predicate ExclusiveAlong(s: State, run: seq<Step>)
    requires CanRun(s, run)
    decreases |run|
  {
    MutuallyExclusive(s) && (run == [] || ExclusiveAlong(Apply(s, run[0]), run[1..]))
  }

  /** Mutual exclusion holds throughout a run, of any processes, if and only
      if every lease is given while no other process holds a live one. */
  lemma {:induction false} RunKeepsExclusionIff(s: State, run: seq<Step>)
    requires MutuallyExclusive(s) && CanRun(s, run)
    ensures ExclusiveAlong(s, run) <==> AllSteps(s, run, GrantsAlone)
    decreases |run|
  {
    if run == [] {
    } else {
      StepKeepsExclusionIff(s, run[0]);
      if GrantsAlone(s, run[0]) {
        RunKeepsExclusionIff(Apply(s, run[0]), run[1..]);
      } else {
        assert !MutuallyExclusive(Apply(s, run[0]));
      }
    }
  }

  /** What the document must look like for a step not to break exclusion. */
  predicate DocAllows(s: State, e: Step) {
    match e
    case Refresh(p) =>
      s.HeldBy(p) || s.doc.None? || !s.Live(s.doc.value.holder) || (s.At(p).pc.Refreshing? ==> s.At(p).pc.expires <= s.now)
    case Take(p) =>
      s.At(p).pc.Taking? && s.HeldBy(s.At(p).pc.other) ==> !s.Live(s.At(p).pc.other) || s.At(p).pc.expires <= s.now
    case _ => true
  }

  /** While every live lease is the document, the document alone decides
      whether a step breaks exclusion. */
  lemma DocDecidesExclusion(s: State, e: Step)
    requires Inv(s) && Enabled(s, e)
    ensures MutuallyExclusive(Apply(s, e)) <==> DocAllows(s, e)
  {
    InvExcludes(s);
    StepKeepsExclusionIff(s, e);
    assert forall q :: s.Live(q) ==> q in s.procs && s.doc == Some(Doc(q, s.At(q).claim.value));
    if e.Take? {
      assert s.At(e.p).pc.other != e.p;
    }
  }

  lemma TakesWhatItReadIsSafe(s: State, e: Step)
    requires Inv(s) && Enabled(s, e) && TakesWhatItRead(s, e) && RefreshMatches(s, e)
    ensures StepSafe(s, e)
  {
  }

  /** Mutual exclusion over every run in which every force-take replaces
      the very document its process read and every refresh matches. */
  lemma {:induction false} ExclusionWhenEveryStepMatches(s: State, run: seq<Step>)
    requires Inv(s) && CanRun(s, run)
    requires AllSteps(s, run, TakesWhatItRead) && AllSteps(s, run, RefreshMatches)
    ensures Inv(After(s, run)) && MutuallyExclusive(After(s, run))
    decreases |run|
  {
    if run == [] {
      InvExcludes(s);
    } else {
      TakesWhatItReadIsSafe(s, run[0]);
      StepKeepsInvIff(s, run[0]);
      ExclusionWhenEveryStepMatches(Apply(s, run[0]), run[1..]);
    }
  }

  // ----- timing instead of matching -----

  /** A refresh still in time finds the document its upsert returned. */
  ghost predicate RefreshesPending(s: State) {
    forall p {:trigger s.At(p)} ::
      s.At(p).pc.Refreshing? && s.now < s.At(p).pc.seen ==> s.doc == Some(Doc(p, s.At(p).pc.seen))
  }

  lemma StepKeepsRefreshesPending(s: State, e: Step)
    requires PcsOk(s) && RefreshesPending(s) && Enabled(s, e) && TakesWhatItRead(s, e)
    ensures RefreshesPending(Apply(s, e))
  {
    var t := Apply(s, e);
    forall p | t.At(p).pc.Refreshing? && t.now < t.At(p).pc.seen
      ensures t.doc == Some(Doc(p, t.At(p).pc.seen))
    {
      assert s.At(p).pc.Refreshing? && s.now < s.At(p).pc.seen ==> s.doc == Some(Doc(p, s.At(p).pc.seen));
      assert e.Take? ==> s.At(e.p).pc.other != e.p && s.At(e.p).pc.seen < s.now;
    }
  }

  /** The matching of refreshes follows from their timing: it is enough
      that each runs before the document its upsert returned expires. */
  lemma {:induction false} ExclusionWhenRefreshesAreInTime(s: State, run: seq<Step>)
    requires Inv(s) && RefreshesPending(s) && CanRun(s, run)
    requires AllSteps(s, run, TakesWhatItRead) && AllSteps(s, run, RefreshInTime)
    ensures AllSteps(s, run, RefreshMatches)
    ensures Inv(After(s, run)) && MutuallyExclusive(After(s, run))
    decreases |run|
  {
    if run == [] {
      InvExcludes(s);
    } else {
      assert RefreshMatches(s, run[0]) by {
        if run[0].Refresh? {
          assert s.At(run[0].p).pc.Refreshing? && s.now < s.At(run[0].p).pc.seen;
        }
      }
      TakesWhatItReadIsSafe(s, run[0]);
      StepKeepsInvIff(s, run[0]);
      StepKeepsRefreshesPending(s, run[0]);
      ExclusionWhenRefreshesAreInTime(Apply(s, run[0]), run[1..]);
    }
  }

  // ----- each hypothesis is needed -----

  /** The run takes `s` to `t`, with `ok` of every step. */
  ghost predicate Leads(s: State, run: seq<Step>, t: State, ok: (State, Step) -> bool) {
    CanRun(s, run) && After(s, run) == t && AllSteps(s, run, ok)
  }

  /** A step taken before a run. */
  lemma LeadsFrom(run: seq<Step>, i: nat, s: State, t: State, ok: (State, Step) -> bool)
    requires i < |run| && Enabled(s, run[i]) && ok(s, run[i]) && Leads(Apply(s, run[i]), run[i + 1..], t, ok)
    ensures Leads(s, run[i..], t, ok)
  {
    assert run[i..][1..] == run[i + 1..];
  }

  lemma LeadsInFour(run: seq<Step>, s: State, s1: State, s2: State, s3: State, t: State, ok: (State, Step) -> bool)
    requires |run| == 4
    requires Enabled(s, run[0]) && ok(s, run[0]) && Apply(s, run[0]) == s1
    requires Enabled(s1, run[1]) && ok(s1, run[1]) && Apply(s1, run[1]) == s2
    requires Enabled(s2, run[2]) && ok(s2, run[2]) && Apply(s2, run[2]) == s3
    requires Enabled(s3, run[3]) && ok(s3, run[3]) && Apply(s3, run[3]) == t
    ensures Leads(s, run, t, ok)
  {
    LeadsFrom(run, 3, s3, t, ok);
    LeadsFrom(run, 2, s2, t, ok);
    LeadsFrom(run, 1, s1, t, ok);
    LeadsFrom(run, 0, s, t, ok);
    assert run[0..] == run;
  }

  lemma {:induction false} RunAppend(s: State, a: seq<Step>, b: seq<Step>, ok: (State, Step) -> bool)
    requires CanRun(s, a) && AllSteps(s, a, ok)
    requires CanRun(After(s, a), b) && AllSteps(After(s, a), b, ok)
    ensures CanRun(s, a + b) && AllSteps(s, a + b, ok) && After(s, a + b) == After(After(s, a), b)
    decreases |a|
  {
    if a == [] {
      assert a + b == b;
    } else {
      assert (a + b)[1..] == a[1..] + b;
      RunAppend(Apply(s, a[0]), a[1..], b, ok);
    }
  }

  lemma {:induction false} BothHold(s: State, run: seq<Step>)
    requires CanRun(s, run) && AllSteps(s, run, RefreshMatchesInTime)
    ensures AllSteps(s, run, RefreshMatches) && AllSteps(s, run, RefreshInTime)
    decreases |run|
  {
    if run == [] {
    } else {
      BothHold(Apply(s, run[0]), run[1..]);
    }
  }

  lemma LeadsOn(s: State, x: seq<Step>, t: State, y: seq<Step>, u: State, ok: (State, Step) -> bool)
    requires Leads(s, x, t, ok) && Leads(t, y, u, ok)
    ensures Leads(s, x + y, u, ok)
  {
    RunAppend(s, x, y, ok);
  }

  /** The time, the document and the processes a and b. */
  predicate Looks(s: State, a: string, b: string, now: real, doc: Option<Doc>, pa: Proc, pb: Proc) {
    s.now == now && s.doc == doc && s.At(a) == pa && s.At(b) == pb
  }

  const START := State(0.0, None, map[])

  /** b finds a's lock expired; a releases it and takes it again; b's
      force-take matches a's name and replaces a's new document. */
  function ReacquiredThenTaken(a: string, b: string): seq<Step> {
    HeldPast(a) + ReadExpired(a, b) + TakenAgain(a, b)
  }

  function HeldPast(a: string): seq<Step> {
    [Begin(a, 10.0), Upsert(a), Refresh(a), Tick(11.0)]
  }

  function ReadExpired(a: string, b: string): seq<Step> {
    [Begin(b, 10.0), Upsert(b), Check(b), Release(a)]
  }

  function TakenAgain(a: string, b: string): seq<Step> {
    [Begin(a, 10.0), Upsert(a), Refresh(a), Take(b)]
  }

  lemma HeldPastRuns(s: State, a: string, b: string) returns (t: State)
    requires a != b && Looks(s, a, b, 0.0, None, Proc(Idle, None), Proc(Idle, None))
    ensures Leads(s, HeldPast(a), t, RefreshMatchesInTime)
    ensures Looks(t, a, b, 11.0, Some(Doc(a, 10.0)), Proc(Idle, Some(10.0)), Proc(Idle, None))
  {
    var run := HeldPast(a);
    var s1 := Apply(s, run[0]);
    var s2 := Apply(s1, run[1]);
    var s3 := Apply(s2, run[2]);
    t := Apply(s3, run[3]);
    LeadsInFour(run, s, s1, s2, s3, t, RefreshMatchesInTime);
  }

  lemma ReadExpiredRuns(s: State, a: string, b: string) returns (t: State)
    requires a != b && Looks(s, a, b, 11.0, Some(Doc(a, 10.0)), Proc(Idle, Some(10.0)), Proc(Idle, None))
    ensures Leads(s, ReadExpired(a, b), t, RefreshMatchesInTime)
    ensures Looks(t, a, b, 11.0, None, Proc(Idle, None), Proc(Taking(a, 10.0, 21.0), None))
  {
    var run := ReadExpired(a, b);
    var s1 := Apply(s, run[0]);
    var s2 := Apply(s1, run[1]);
    var s3 := Apply(s2, run[2]);
    t := Apply(s3, run[3]);
    LeadsInFour(run, s, s1, s2, s3, t, RefreshMatchesInTime);
  }

  lemma TakenAgainRuns(s: State, a: string, b: string) returns (t: State)
    requires a != b && Looks(s, a, b, 11.0, None, Proc(Idle, None), Proc(Taking(a, 10.0, 21.0), None))
    ensures Leads(s, TakenAgain(a, b), t, RefreshMatchesInTime)
    ensures Looks(t, a, b, 11.0, Some(Doc(b, 21.0)), Proc(Idle, Some(21.0)), Proc(Idle, Some(21.0)))
  {
    var run := TakenAgain(a, b);
    var s1 := Apply(s, run[0]);
    var s2 := Apply(s1, run[1]);
    var s3 := Apply(s2, run[2]);
    t := Apply(s3, run[3]);
    LeadsInFour(run, s, s1, s2, s3, t, RefreshMatchesInTime);
  }

  /** Every refresh of that run matches and is in time, and two processes
      hold a live lease at its end: what a force-take replaces matters. */
  lemma StaleTakeBreaksExclusion(a: string, b: string)
    requires a != b
    ensures CanRun(START, ReacquiredThenTaken(a, b))
    ensures AllSteps(START, ReacquiredThenTaken(a, b), RefreshMatches)
    ensures AllSteps(START, ReacquiredThenTaken(a, b), RefreshInTime)
    ensures !MutuallyExclusive(After(START, ReacquiredThenTaken(a, b)))
  {
    var t := HeldPastRuns(START, a, b);
    var u := ReadExpiredRuns(t, a, b);
    var end := TakenAgainRuns(u, a, b);
    LeadsOn(START, HeldPast(a), t, ReadExpired(a, b), u, RefreshMatchesInTime);
    LeadsOn(START, HeldPast(a) + ReadExpired(a, b), u, TakenAgain(a, b), end, RefreshMatchesInTime);
    BothHold(START, ReacquiredThenTaken(a, b));
    assert end.Live(a) && end.Live(b);
  }

  /** a starts to renew; its lock expires and is reaped; b takes it; a's
      refresh finds nothing of its own and still reports success. */
  function RefreshedTooLate(a: string, b: string): seq<Step> {
    HeldFor(a) + RenewalReaped(a) + RefreshedAfter(a, b)
  }

  function HeldFor(a: string): seq<Step> {
    [Begin(a, 10.0), Upsert(a), Refresh(a), Tick(9.0)]
  }

  function RenewalReaped(a: string): seq<Step> {
    [Begin(a, 10.0), Upsert(a), Tick(1.0), Reap]
  }

  function RefreshedAfter(a: string, b: string): seq<Step> {
    [Begin(b, 10.0), Upsert(b), Refresh(b), Refresh(a)]
  }

  lemma HeldForRuns(s: State, a: string, b: string) returns (t: State)
    requires a != b && Looks(s, a, b, 0.0, None, Proc(Idle, None), Proc(Idle, None))
    ensures Leads(s, HeldFor(a), t, TakesWhatItRead)
    ensures Looks(t, a, b, 9.0, Some(Doc(a, 10.0)), Proc(Idle, Some(10.0)), Proc(Idle, None))
  {
    var run := HeldFor(a);
    var s1 := Apply(s, run[0]);
    var s2 := Apply(s1, run[1]);
    var s3 := Apply(s2, run[2]);
    t := Apply(s3, run[3]);
    LeadsInFour(run, s, s1, s2, s3, t, TakesWhatItRead);
  }

  lemma RenewalReapedRuns(s: State, a: string, b: string) returns (t: State)
    requires a != b && Looks(s, a, b, 9.0, Some(Doc(a, 10.0)), Proc(Idle, Some(10.0)), Proc(Idle, None))
    ensures Leads(s, RenewalReaped(a), t, TakesWhatItRead)
    ensures Looks(t, a, b, 10.0, None, Proc(Refreshing(10.0, 19.0), Some(10.0)), Proc(Idle, None))
  {
    var run := RenewalReaped(a);
    var s1 := Apply(s, run[0]);
    var s2 := Apply(s1, run[1]);
    var s3 := Apply(s2, run[2]);
    t := Apply(s3, run[3]);
    LeadsInFour(run, s, s1, s2, s3, t, TakesWhatItRead);
  }

  lemma RefreshedAfterRuns(s: State, a: string, b: string) returns (t: State)
    requires a != b && Looks(s, a, b, 10.0, None, Proc(Refreshing(10.0, 19.0), Some(10.0)), Proc(Idle, None))
    ensures Leads(s, RefreshedAfter(a, b), t, TakesWhatItRead)
    ensures Looks(t, a, b, 10.0, Some(Doc(b, 20.0)), Proc(Idle, Some(19.0)), Proc(Idle, Some(20.0)))
  {
    var run := RefreshedAfter(a, b);
    var s1 := Apply(s, run[0]);
    var s2 := Apply(s1, run[1]);
    var s3 := Apply(s2, run[2]);
    t := Apply(s3, run[3]);
    LeadsInFour(run, s, s1, s2, s3, t, TakesWhatItRead);
  }

  /** No force-take happens in that run, and two processes hold a live
      lease at its end: whether a refresh matches matters. */
  lemma LateRefreshBreaksExclusion(a: string, b: string)
    requires a != b
    ensures CanRun(START, RefreshedTooLate(a, b))
    ensures AllSteps(START, RefreshedTooLate(a, b), TakesWhatItRead)
    ensures !MutuallyExclusive(After(START, RefreshedTooLate(a, b)))
  {
    var t := HeldForRuns(START, a, b);
    var u := RenewalReapedRuns(t, a, b);
    var end := RefreshedAfterRuns(u, a, b);
    LeadsOn(START, HeldFor(a), t, RenewalReaped(a), u, TakesWhatItRead);
    LeadsOn(START, HeldFor(a) + RenewalReaped(a), u, RefreshedAfter(a, b), end, TakesWhatItRead);
    assert end.Live(a) && end.Live(b);
  }

  // ----- safe steps are exactly those that leave exclusion in reach -----

  lemma LeadsNowhere(s: State, ok: (State, Step) -> bool)
    ensures Leads(s, [], s, ok)
  {
  }

  lemma LeadsFirst(s: State, e: Step, run: seq<Step>, t: State, ok: (State, Step) -> bool)
    requires Enabled(s, e) && ok(s, e) && Leads(Apply(s, e), run, t, ok)
    ensures Leads(s, [e] + run, t, ok)
  {
    assert ([e] + run)[0] == e && ([e] + run)[1..] == run;
  }

  /** The time and every process but `p` are the same. */
  ghost predicate OthersSame(s: State, t: State, p: string) {
    t.now == s.now && forall q :: q != p ==> t.At(q) == s.At(q)
  }

  lemma {:induction false} LongerName(names: set<string>) returns (q: string)
    ensures forall n :: n in names ==> |n| < |q|
  {
    if names == {} {
      q := "q";
    } else {
      var n :| n in names;
      var r := LongerName(names - {n});
      q := r + n + "q";
    }
  }

  function Acquiring(p: string, ttl: real): seq<Step> {
    [Begin(p, ttl), Upsert(p), Refresh(p)]
  }

  /** The process has the lease it asked for, and the document is it. */
  ghost predicate Acquired(s: State, p: string, ttl: real, t: State) {
    t.doc == Some(Doc(p, s.now + ttl)) && t.At(p) == Proc(Idle, Some(s.now + ttl))
  }

  lemma Acquires(s: State, p: string, ttl: real) returns (t: State)
    requires s.At(p).pc.Idle? && (s.doc.None? || s.HeldBy(p))
    ensures Leads(s, Acquiring(p, ttl), t, StepSafe) && Acquired(s, p, ttl, t) && OthersSame(s, t, p)
  {
    var run := Acquiring(p, ttl);
    var s1 := Apply(s, run[0]);
    var s2 := Apply(s1, run[1]);
    t := Apply(s2, run[2]);
    LeadsNowhere(t, StepSafe);
    LeadsFrom(run, 2, s2, t, StepSafe);
    LeadsFrom(run, 1, s1, t, StepSafe);
    LeadsFrom(run, 0, s, t, StepSafe);
    assert run[0..] == run;
  }

  function StepsLeft(pc: Pc): nat {
    match pc
    case Idle => 0
    case Refreshing(_, _) => 1
    case Taking(_, _, _) => 1
    case _ => 2
  }

  /** The holder of the document ends the `acquire` it is in. */
  lemma {:induction false} EndsAcquire(s: State, p: string) returns (run: seq<Step>, t: State)
    requires s.HeldBy(p)
    requires (s.At(p).pc.Checking? || s.At(p).pc.Taking?) ==> s.At(p).pc.other != p
    ensures Leads(s, run, t, StepSafe) && t.At(p).pc.Idle? && t.HeldBy(p) && OthersSame(s, t, p)
    decreases StepsLeft(s.At(p).pc)
  {
    if s.At(p).pc.Idle? {
      run, t := [], s;
      LeadsNowhere(s, StepSafe);
    } else {
      var e := match s.At(p).pc
        case Upserting(_) => Upsert(p)
        case Refreshing(_, _) => Refresh(p)
        case Checking(_, _, _) => Check(p)
        case Taking(_, _, _) => Take(p)
        case Idle => Reap;
      var rest, u := EndsAcquire(Apply(s, e), p);
      run, t := [e] + rest, u;
      LeadsFirst(s, e, rest, t, StepSafe);
    }
  }

  /** A second live lease: `q` can have the document while `p` holds one. */
  lemma SecondLease(s: State, p: string, q: string) returns (t: State)
    requires s.Live(p) && p != q && s.At(q).pc.Idle? && (s.doc.None? || s.HeldBy(q))
    ensures Leads(s, Acquiring(q, 1.0), t, StepSafe) && !MutuallyExclusive(t)
  {
    t := Acquires(s, q, 1.0);
    assert t.Live(p) && t.Live(q);
  }

  lemma FreeKeyBreaks(s: State, p: string) returns (run: seq<Step>, t: State)
    requires s.Live(p) && s.doc.None?
    ensures Leads(s, run, t, StepSafe) && !MutuallyExclusive(t)
  {
    var q := LongerName(s.procs.Keys);
    run := Acquiring(q, 1.0);
    t := SecondLease(s, p, q);
  }

  lemma HeldKeyBreaks(s: State, p: string, q: string) returns (run: seq<Step>, t: State)
    requires s.Live(p) && p != q && s.HeldBy(q)
    requires (s.At(q).pc.Checking? || s.At(q).pc.Taking?) ==> s.At(q).pc.other != q
    ensures Leads(s, run, t, StepSafe) && !MutuallyExclusive(t)
  {
    var ending, u := EndsAcquire(s, q);
    t := SecondLease(u, p, q);
    run := ending + Acquiring(q, 1.0);
    LeadsOn(s, ending, u, Acquiring(q, 1.0), t, StepSafe);
  }

  /** Any step that is not safe can be followed, by safe steps only, to two
      live leases. */
  lemma UnsafeStepBreaksExclusion(s: State, e: Step) returns (run: seq<Step>, t: State)
    requires Inv(s) && Enabled(s, e) && !StepSafe(s, e)
    ensures Leads(Apply(s, e), run, t, StepSafe) && !MutuallyExclusive(t)
  {
    var u := Apply(s, e);
    if e.Refresh? {
      assert u.Live(e.p) && u.doc == s.doc;
      if u.doc.None? {
        run, t := FreeKeyBreaks(u, e.p);
      } else {
        var q := u.doc.value.holder;
        assert u.At(q) == s.At(q);
        run, t := HeldKeyBreaks(u, e.p, q);
      }
    } else {
      var other := s.At(e.p).pc.other;
      assert other != e.p;
      assert u.At(other) == s.At(other) && u.Live(other);
      if u.now < u.doc.value.expires {
        run, t := [], u;
        LeadsNowhere(u, StepSafe);
        assert u.Live(e.p);
      } else {
        var rest;
        rest, t := FreeKeyBreaks(Apply(u, Reap), other);
        run := [Reap] + rest;
        LeadsFirst(u, Reap, rest, t, StepSafe);
      }
    }
  }

  lemma {:induction false} InvAtEnd(s: State, run: seq<Step>)
    requires CanRun(s, run) && InvAlong(s, run)
    ensures Inv(After(s, run))
    decreases |run|
  {
    if run == [] {
    } else {
      InvAtEnd(Apply(s, run[0]), run[1..]);
    }
  }

  /** The run, if it consists of safe steps, does not break exclusion. */
  ghost predicate SafeRunExcludes(s: State, run: seq<Step>) {
    CanRun(s, run) && AllSteps(s, run, StepSafe) ==> MutuallyExclusive(After(s, run))
  }

  lemma SafeRunsExclude(s: State, run: seq<Step>)
    requires Inv(s)
    ensures SafeRunExcludes(s, run)
  {
    if CanRun(s, run) && AllSteps(s, run, StepSafe) {
      RunKeepsInvIff(s, run);
      InvAtEnd(s, run);
      InvExcludes(After(s, run));
    }
  }

  /** A step is safe if and only if no run of safe steps after it breaks
      mutual exclusion. */
  lemma StepSafeExactly(s: State, e: Step)
    requires Inv(s) && Enabled(s, e)
    ensures StepSafe(s, e) <==> forall run :: SafeRunExcludes(Apply(s, e), run)
  {
    var u := Apply(s, e);
    if StepSafe(s, e) {
      StepKeepsInvIff(s, e);
      forall run
        ensures SafeRunExcludes(u, run)
      {
        SafeRunsExclude(u, run);
      }
    } else {
      var run, t := UnsafeStepBreaksExclusion(s, e);
      assert !SafeRunExcludes(u, run);
    }
  }

  // ----- one process, no interleaving -----

  /** The `locks` collection: each method is one atomic operation. */
  class LockCollection {
    var docs: map<string, Doc>

    constructor ()
      ensures docs == map[]
    {
      docs := map[];
    }

    method UpsertOnInsert(key: string, doc: Doc) returns (after: Doc)
      modifies this
      ensures docs == if key in old(docs) then old(docs) else old(docs)[key := doc]
      ensures after == docs[key]
    {
      if key !in docs {
        docs := docs[key := doc];
      }
      after := docs[key];
    }

    /** Sets the document when its holder is `expected`. */
    method UpdateHeldBy(key: string, expected: string, doc: Doc) returns (matched: bool)
      modifies this
      ensures matched <==> key in old(docs) && old(docs)[key].holder == expected
      ensures docs == if matched then old(docs)[key := doc] else old(docs)
    {
      matched := key in docs && docs[key].holder == expected;
      if matched {
        docs := docs[key := doc];
      }
    }

    method DeleteHeldBy(key: string, expected: string)
      modifies this
      ensures docs == if key in old(docs) && old(docs)[key].holder == expected then old(docs) - {key} else old(docs)
    {
      if key in docs && docs[key].holder == expected {
        docs := docs - {key};
      }
    }
  }

  class MongoDistributedLock {
    const coll: LockCollection
    const holder: string

    constructor (coll: LockCollection, holder: string)
      ensures this.coll == coll && this.holder == holder
    {
      this.coll, this.holder := coll, holder;
    }

    /** `acquire`, nothing else running: it succeeds exactly when the key is
        free, its own or expired, and then the document is its lease. `now`
        and `later` are its two readings of the clock. */
    method Acquire(key: string, ttl: real, now: real, later: real) returns (acquired: bool)
      requires now <= later
      modifies coll
      ensures acquired <==>
        key !in old(coll.docs) || old(coll.docs)[key].holder == holder || old(coll.docs)[key].expires < later
      ensures coll.docs == if acquired then old(coll.docs)[key := Doc(holder, now + ttl)] else old(coll.docs)
    {
      var expires := now + ttl;
      var result := coll.UpsertOnInsert(key, Doc(holder, expires));
      if result.holder == holder {
        var matched := coll.UpdateHeldBy(key, holder, Doc(holder, expires));
        return true;
      }
      if result.expires < later {
        acquired := coll.UpdateHeldBy(key, result.holder, Doc(holder, expires));
        return;
      }
      return false;
    }

    method Release(key: string)
      modifies coll
      ensures coll.docs ==
        if key in old(coll.docs) && old(coll.docs)[key].holder == holder then old(coll.docs) - {key} else old(coll.docs)
    {
      coll.DeleteHeldBy(key, holder);
    }
  }

  /** The document of one key, in the step system. */
  function DocAt(docs: map<string, Doc>, key: string): Option<Doc> {
    if key in docs then Some(docs[key]) else None
  }

  /** The steps of one `acquire`, taken one after the other; `wait` passes
      between its two readings of the clock. */
  function AcquireRun(s: State, p: string, ttl: real, wait: real): seq<Step> {
    [Begin(p, ttl), Upsert(p)]
    + (if s.doc.None? || s.doc.value.holder == p then [Refresh(p)]
       else if s.doc.value.expires < s.now + wait then [Tick(wait), Check(p), Take(p)]
       else [Tick(wait), Check(p)])
  }

  predicate AnyStep(s: State, e: Step) {
    true
  }

  predicate Acquirable(s: State, p: string, wait: real) {
    s.doc.None? || s.doc.value.holder == p || s.doc.value.expires < s.now + wait
  }

  lemma AcquireFree(s: State, p: string, ttl: real, wait: real)
    requires s.At(p).pc.Idle? && (s.doc.None? || s.doc.value.holder == p)
    ensures var run := AcquireRun(s, p, ttl, wait); CanRun(s, run) && Acquired(s, p, ttl, After(s, run))
  {
    var t := Acquires(s, p, ttl);
    assert AcquireRun(s, p, ttl, wait) == Acquiring(p, ttl);
  }

  lemma AcquireExpired(s: State, p: string, ttl: real, wait: real)
    requires s.At(p).pc.Idle? && s.doc.Some? && s.doc.value.holder != p && s.doc.value.expires < s.now + wait && wait >= 0.0
    ensures var run := AcquireRun(s, p, ttl, wait); CanRun(s, run) && Acquired(s, p, ttl, After(s, run))
  {
    var run := AcquireRun(s, p, ttl, wait);
    var s1 := Apply(s, Begin(p, ttl));
    var s2 := Apply(s1, Upsert(p));
    var s3 := Apply(s2, Tick(wait));
    var s4 := Apply(s3, Check(p));
    var s5 := Apply(s4, Take(p));
    LeadsFrom(run, 4, s4, s5, AnyStep);
    LeadsFrom(run, 3, s3, s5, AnyStep);
    LeadsFrom(run, 2, s2, s5, AnyStep);
    LeadsFrom(run, 1, s1, s5, AnyStep);
    LeadsFrom(run, 0, s, s5, AnyStep);
    assert run[0..] == run;
  }

  lemma AcquireTaken(s: State, p: string, ttl: real, wait: real)
    requires s.At(p).pc.Idle? && !Acquirable(s, p, wait) && wait >= 0.0
    ensures var run := AcquireRun(s, p, ttl, wait);
      CanRun(s, run) && After(s, run).doc == s.doc && After(s, run).At(p) == s.At(p)
  {
    var run := AcquireRun(s, p, ttl, wait);
    var s1 := Apply(s, Begin(p, ttl));
    var s2 := Apply(s1, Upsert(p));
    var s3 := Apply(s2, Tick(wait));
    var s4 := Apply(s3, Check(p));
    LeadsFrom(run, 3, s3, s4, AnyStep);
    LeadsFrom(run, 2, s2, s4, AnyStep);
    LeadsFrom(run, 1, s1, s4, AnyStep);
    LeadsFrom(run, 0, s, s4, AnyStep);
    assert run[0..] == run;
  }

  /** So does `release`, which is one step. */
  method ReleaseAlone(lock: MongoDistributedLock, key: string, ghost s: State)
    requires s.At(lock.holder).pc.Idle? && s.doc == DocAt(lock.coll.docs, key)
    modifies lock.coll
    ensures var t := Apply(s, Release(lock.holder));
      DocAt(lock.coll.docs, key) == t.doc && !t.Live(lock.holder) && forall p :: p != lock.holder ==> t.At(p) == s.At(p)
    ensures forall k :: k != key ==> DocAt(lock.coll.docs, k) == DocAt(old(lock.coll.docs), k)
  {
    lock.Release(key);
  }

  /** The method and the steps agree: taken without interleaving from a
      state that has the key's document, the steps leave the document that
      the method leaves, and the process the lease that it reports. */
  method AcquireAlone(lock: MongoDistributedLock, key: string, ttl: real, now: real, later: real, ghost s: State)
    returns (acquired: bool)
    requires now <= later && s.now == now && s.At(lock.holder).pc.Idle? && s.doc == DocAt(lock.coll.docs, key)
    modifies lock.coll
    ensures var run := AcquireRun(s, lock.holder, ttl, later - now);
      && CanRun(s, run)
      && DocAt(lock.coll.docs, key) == After(s, run).doc
      && After(s, run).At(lock.holder) == if acquired then Proc(Idle, Some(now + ttl)) else s.At(lock.holder)
    ensures forall k :: k != key ==> DocAt(lock.coll.docs, k) == DocAt(old(lock.coll.docs), k)
  {
    if s.doc.None? || s.doc.value.holder == lock.holder {
      AcquireFree(s, lock.holder, ttl, later - now);
    } else if s.doc.value.expires < later {
      AcquireExpired(s, lock.holder, ttl, later - now);
    } else {
      AcquireTaken(s, lock.holder, ttl, later - now);
    }
    acquired := lock.Acquire(key, ttl, now, later);
  }
}
