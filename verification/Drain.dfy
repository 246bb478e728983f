/** The drain coordinator and its middleware. Each method is one stretch of
    code between two awaits, so any interleaving of requests and the drain
    is a sequence of calls of these methods. */
module Drain {
  // ----- the coordinator -----

  /** Where `drain` is. A resolved wait stays resolved even if the idle
      event is cleared before the waiter runs. */
  datatype Waiter =
    | NotDraining
    | AwaitingIdle(resolved: bool, deadline: real)
    | Sleeping(startedBefore: nat, since: real, deadline: real)
    | CompleteImmediately
    | Complete
    | TimedOut

  class DrainCoordinator {
    const drainTimeout: real
    const quietSeconds: real
    var draining: bool
    var activeRequests: int
    var startedTotal: nat
    var idle: bool
    var waiter: Waiter
    /** The loop's clock. */
    var clock: real
    /** When each counted request started. */
    ghost var starts: seq<real>
    ghost var beganAt: real
    /** The state of things when the drain returned. */
    ghost var returnedAt: real
    ghost var startsAtReturn: nat
    ghost var activeAtReturn: int

    predicate Waiting()
      reads this
    {
      waiter.AwaitingIdle? || waiter.Sleeping?
    }

    /** Every start before the snapshot is no later than it. */
    ghost predicate SnapshotOk()
      requires waiter.Sleeping?
      reads this
    {
      waiter.since <= clock && waiter.startedBefore <= |starts|
      && forall i :: 0 <= i < waiter.startedBefore ==> starts[i] <= waiter.since
    }

    ghost predicate QuietAtReturn()
      reads this
    {
      && startsAtReturn <= |starts|
      && forall i :: 0 <= i < startsAtReturn ==> starts[i] <= returnedAt - quietSeconds
    }

    /** A drain that returned did so in time; if it completed, no request
        was active and none had started for `quietSeconds`. */
    ghost predicate ReturnOk()
      reads this
    {
      && (draining && !Waiting() ==> beganAt <= returnedAt <= beganAt + drainTimeout && returnedAt <= clock && startsAtReturn <= |starts|)
      && (waiter.Complete? ==> activeAtReturn == 0 && QuietAtReturn())
    }

    ghost predicate Valid()
      reads this
    {
      && quietSeconds >= 0.0 && drainTimeout >= 0.0
      && activeRequests >= 0 && (idle <==> activeRequests == 0)
      && |starts| == startedTotal && (forall t :: t in starts ==> t <= clock)
      && (draining <==> !waiter.NotDraining?)
      && (waiter.AwaitingIdle? ==> idle ==> waiter.resolved)
      && (Waiting() ==> beganAt <= clock <= waiter.deadline == beganAt + drainTimeout)
      && (waiter.Sleeping? ==> SnapshotOk())
      && ReturnOk()
    }

    constructor (drainTimeout: real, quietSeconds: real, clock: real)
      requires quietSeconds >= 0.0 && drainTimeout >= 0.0
      ensures Valid() && activeRequests == 0 && startedTotal == 0 && waiter.NotDraining? && this.clock == clock
    {
      this.drainTimeout, this.quietSeconds := drainTimeout, quietSeconds;
      draining, activeRequests, startedTotal, idle, waiter := false, 0, 0, true, NotDraining;
      this.clock, starts := clock, [];
      beganAt, returnedAt, startsAtReturn, activeAtReturn := clock, clock, 0, 0;
    }

    /** Time passes, never past a pending timeout: the loop runs it first. */
    method Advance(later: real)
      requires Valid() && clock <= later
      requires Waiting() ==> later <= waiter.deadline
      modifies this`clock
      ensures Valid() && clock == later
    {
      clock := later;
    }

    method RequestStarted()
      requires Valid()
      modifies this`activeRequests, this`startedTotal, this`idle, this`starts
      ensures Valid() && activeRequests == old(activeRequests) + 1 && !idle
      ensures starts == old(starts) + [clock]
    {
      activeRequests := activeRequests + 1;
      startedTotal := startedTotal + 1;
      idle := false;
      starts := starts + [clock];
    }

    /** `request_finished`; the event resolves a pending wait. The clamp at
        0 is in the source: it bites only on a call too many. */
    method RequestFinished()
      requires Valid()
      modifies this`activeRequests, this`idle, this`waiter
      ensures Valid()
      ensures activeRequests == if old(activeRequests) > 0 then old(activeRequests) - 1 else 0
      ensures waiter == if activeRequests == 0 && old(waiter).AwaitingIdle? then old(waiter).(resolved := true) else old(waiter)
    {
      activeRequests := if activeRequests - 1 > 0 then activeRequests - 1 else 0;
      if activeRequests == 0 {
        idle := true;
        if waiter.AwaitingIdle? {
          waiter := waiter.(resolved := true);
        }
      }
    }

    // ----- `drain`, cut at its awaits -----

    method BeginDrain()
      requires Valid() && !draining
      modifies this`draining, this`waiter, this`beganAt, this`returnedAt, this`startsAtReturn, this`activeAtReturn
      ensures Valid() && draining && beganAt == clock
      ensures waiter == if activeRequests == 0 then CompleteImmediately else AwaitingIdle(false, clock + drainTimeout)
    {
      draining := true;
      beganAt, returnedAt, startsAtReturn, activeAtReturn := clock, clock, |starts|, activeRequests;
      waiter := if activeRequests == 0 then CompleteImmediately else AwaitingIdle(false, clock + drainTimeout);
    }

    /** The wait for the idle event ends: the quiet period starts. */
    method ResumeFromIdle()
      requires Valid() && waiter.AwaitingIdle? && waiter.resolved
      modifies this`waiter
      ensures Valid() && waiter == Sleeping(startedTotal, clock, old(waiter).deadline)
    {
      assert forall i :: 0 <= i < |starts| ==> starts[i] in starts;
      waiter := Sleeping(startedTotal, clock, waiter.deadline);
    }

    /** The quiet period is over, however late. The drain completes only
        when no counted request is active and none started during the last
        `quietSeconds`; otherwise it waits again. */
    method WakeFromSleep()
      requires Valid() && waiter.Sleeping? && clock >= waiter.since + quietSeconds
      modifies this`waiter, this`returnedAt, this`startsAtReturn, this`activeAtReturn
      ensures Valid() && (waiter.Complete? <==> idle && startedTotal == old(waiter).startedBefore)
      ensures waiter.Complete? ==> activeRequests == 0 && forall t :: t in starts ==> t <= clock - quietSeconds
      ensures waiter == if waiter.Complete? then Complete
                        else if idle then Sleeping(startedTotal, clock, old(waiter).deadline)
                        else AwaitingIdle(false, old(waiter).deadline)
    {
      assert forall i :: 0 <= i < |starts| ==> starts[i] in starts;
      if idle && startedTotal == waiter.startedBefore {
        waiter := Complete;
        returnedAt, startsAtReturn, activeAtReturn := clock, |starts|, activeRequests;
      } else if idle {
        waiter := Sleeping(startedTotal, clock, waiter.deadline);
      } else {
        waiter := AwaitingIdle(false, waiter.deadline);
      }
    }

    /** `asyncio.timeout` fires. */
    method TimeOut()
      requires Valid() && Waiting() && clock >= waiter.deadline
      modifies this`waiter, this`returnedAt, this`startsAtReturn, this`activeAtReturn
      ensures Valid() && waiter.TimedOut?
    {
      waiter := TimedOut;
      returnedAt, startsAtReturn, activeAtReturn := clock, |starts|, activeRequests;
    }

    /** What a step does: the signal starts the drain once; the wait for
        the idle event ends once it was resolved; the quiet period ends when
        it is over, and the drain completes only if no request is active and
        none started in it; the timeout ends a wait at its deadline. A step
        that cannot happen now changes nothing. */
    twostate predicate Stepped(step: DrainStep)
      reads this
    {
      var was := old(waiter);
      && draining == (old(draining) || step.Sigterm?)
      && clock == (if step.Pass? && step.seconds >= 0.0 && (old(Waiting()) ==> old(clock) + step.seconds <= was.deadline)
                   then old(clock) + step.seconds else old(clock))
      && waiter == match step
         case Sigterm =>
           if old(draining) then was
           else if old(activeRequests) == 0 then CompleteImmediately
           else AwaitingIdle(false, old(clock) + drainTimeout)
         case Resume =>
           if was.AwaitingIdle? && was.resolved then Sleeping(old(startedTotal), old(clock), was.deadline) else was
         case Wake =>
           if !was.Sleeping? || old(clock) < was.since + quietSeconds then was
           else if old(activeRequests) > 0 then AwaitingIdle(false, was.deadline)
           else if old(startedTotal) == was.startedBefore then Complete
           else Sleeping(old(startedTotal), old(clock), was.deadline)
         case Timeout =>
           if old(Waiting()) && old(clock) >= was.deadline then TimedOut else was
         case Pass(_) => was
    }

    /** One step of the drain or of time, if it can happen now. */
    method Proceed(step: DrainStep)
      requires Valid()
      modifies this`clock, this`draining, this`waiter, this`beganAt, this`returnedAt, this`startsAtReturn, this`activeAtReturn
      ensures Valid() && Stepped(step)
      ensures beganAt == if step.Sigterm? && !old(draining) then old(clock) else old(beganAt)
    {
      match step
      case Sigterm =>
        if !draining {
          BeginDrain();
        }
      case Resume =>
        if waiter.AwaitingIdle? && waiter.resolved {
          ResumeFromIdle();
        }
      case Wake =>
        if waiter.Sleeping? && clock >= waiter.since + quietSeconds {
          WakeFromSleep();
        }
      case Timeout =>
        if Waiting() && clock >= waiter.deadline {
          TimeOut();
        }
      case Pass(seconds) =>
        if seconds >= 0.0 && (Waiting() ==> clock + seconds <= waiter.deadline) {
          Advance(clock + seconds);
        }
    }
  }

  // ----- the middleware -----

  /** What the middleware reads of a request. */
  datatype Scope = Scope(isHttp: bool, isHealthPath: bool, continuesMcpSession: bool, isEventStreamPath: bool, isEventStream: bool)

  predicate Counts(scope: Scope, draining: bool) {
    && scope.isHttp && !scope.isHealthPath && !scope.isEventStream
    && (!draining || scope.continuesMcpSession || scope.isEventStreamPath)
  }

  datatype Treatment = PassThrough | Refuse | Count

  /** Health checks and what is not HTTP are passed through; while draining
      new sessions are refused, but for the dashboard's streams; event
      streams are not counted, everything else is. */
  function Treat(scope: Scope, draining: bool): (t: Treatment)
    ensures t == Count <==> Counts(scope, draining)
    ensures t == Refuse <==>
      scope.isHttp && !scope.isHealthPath && draining && !scope.continuesMcpSession && !scope.isEventStreamPath
  {
    if !scope.isHttp || scope.isHealthPath then PassThrough
    else if draining && !scope.continuesMcpSession && !scope.isEventStreamPath then Refuse
    else if scope.isEventStream then PassThrough
    else Count
  }

  /** A counted request: `finished` is the middleware's own flag. */
  datatype Request = Request(finished: bool, ended: bool)

  function Unfinished(requests: map<nat, Request>): set<nat> {
    set id | id in requests && !requests[id].finished
  }

  lemma UnfinishedArrival(requests: map<nat, Request>, id: nat)
    requires id !in requests
    ensures |Unfinished(requests[id := Request(false, false)])| == |Unfinished(requests)| + 1
    ensures |requests[id := Request(false, false)]| == |requests| + 1
  {
    assert requests[id := Request(false, false)].Keys == requests.Keys + {id};
    assert Unfinished(requests[id := Request(false, false)]) == Unfinished(requests) + {id};
  }

  lemma UnfinishedFinish(requests: map<nat, Request>, id: nat, ended: bool)
    requires id in requests
    ensures |Unfinished(requests[id := Request(true, ended)])| == |Unfinished(requests)| - if requests[id].finished then 0 else 1
    ensures |requests[id := Request(true, ended)]| == |requests|
  {
    assert requests[id := Request(true, ended)].Keys == requests.Keys;
    assert Unfinished(requests[id := Request(true, ended)]) == Unfinished(requests) - {id};
  }

  class DrainMiddleware {
    const drain: DrainCoordinator
    var requests: map<nat, Request>
    /** How often `request_finished` was called for each request. */
    ghost var finishes: map<nat, nat>

    /** The count is the number of counted requests not finished, and each
        finished one was finished exactly once. */
    ghost predicate Valid()
      reads this, drain
    {
      && drain.Valid()
      && drain.activeRequests == |Unfinished(requests)|
      && drain.startedTotal == |requests|
      && finishes.Keys == requests.Keys
      && (forall id :: id in requests ==> finishes[id] == if requests[id].finished then 1 else 0)
      && (forall id :: id in requests && requests[id].ended ==> requests[id].finished)
    }

    constructor (drain: DrainCoordinator)
      requires drain.Valid() && drain.activeRequests == 0 && drain.startedTotal == 0
      ensures Valid() && this.drain == drain && requests == map[]
    {
      this.drain, requests, finishes := drain, map[], map[];
    }

    /** A request arrives: passed through, refused, or counted from here. */
    method Arrive(id: nat, scope: Scope) returns (t: Treatment)
      requires Valid() && id !in requests
      modifies this, drain`activeRequests, drain`startedTotal, drain`idle, drain`starts
      ensures Valid() && t == Treat(scope, drain.draining)
      ensures requests == if t == Count then old(requests)[id := Request(false, false)] else old(requests)
      ensures drain.starts == if t == Count then old(drain.starts) + [drain.clock] else old(drain.starts)
    {
      t := Treat(scope, drain.draining);
      if t == Count {
        UnfinishedArrival(requests, id);
        drain.RequestStarted();
        requests, finishes := requests[id := Request(false, false)], finishes[id := 0];
      }
    }

    /** `finish`: idempotent, and the count it lowers is never 0. */
    method Finish(id: nat)
      requires Valid() && id in requests
      modifies this, drain`activeRequests, drain`idle, drain`waiter
      ensures Valid() && requests == old(requests)[id := old(requests)[id].(finished := true)]
      ensures drain.activeRequests == old(drain.activeRequests) - (if old(requests)[id].finished then 0 else 1)
    {
      if !requests[id].finished {
        UnfinishedFinish(requests, id, requests[id].ended);
        requests, finishes := requests[id := requests[id].(finished := true)], finishes[id := finishes[id] + 1];
        drain.RequestFinished();
      } else {
        assert requests == requests[id := requests[id].(finished := true)];
      }
    }

    /** A message of a counted request is sent (`sent` false: the send
        raised). The last body chunk finishes the request. */
    method SendAndTrack(id: nat, isBody: bool, moreBody: bool, sent: bool)
      requires Valid() && id in requests
      modifies this, drain`activeRequests, drain`idle, drain`waiter
      ensures Valid()
      ensures requests == if sent && isBody && !moreBody then old(requests)[id := old(requests)[id].(finished := true)]
                          else old(requests)
    {
      if sent {
        if isBody && !moreBody {
          Finish(id);
        }
      }
    }

    /** The app returned or raised: the `finally` finishes the request. */
    method Ended(id: nat)
      requires Valid() && id in requests
      modifies this, drain`activeRequests, drain`idle, drain`waiter
      ensures Valid() && requests == old(requests)[id := Request(true, true)]
    {
      Finish(id);
      UnfinishedFinish(requests, id, true);
      requests := requests[id := Request(true, true)];
    }

    /** One event: an arrival adds the request if it is counted, the last
        body chunk and the end finish it, a step of the drain is that step,
        and nothing else changes a request. */
    method Handle(e: Event)
      requires Valid()
      modifies this, drain
      ensures Valid() && drain.clock >= old(drain.clock)
      ensures drain.draining == (old(drain.draining) || e == Drain(Sigterm))
      ensures match e
        case Arrival(id, scope) =>
          requests == (if id !in old(requests) && Counts(scope, old(drain.draining)) then old(requests)[id := Request(false, false)]
                       else old(requests))
        case Message(id, isBody, moreBody, sent) =>
          requests == (if id in old(requests) && sent && isBody && !moreBody then old(requests)[id := old(requests)[id].(finished := true)]
                       else old(requests))
        case End(id) =>
          requests == if id in old(requests) then old(requests)[id := Request(true, true)] else old(requests)
        case Drain(step) =>
          requests == old(requests) && drain.Stepped(step)
    {
      match e
      case Arrival(id, scope) =>
        if id !in requests {
          var t := Arrive(id, scope);
        }
      case Message(id, isBody, moreBody, sent) =>
        if id in requests {
          SendAndTrack(id, isBody, moreBody, sent);
        }
      case End(id) =>
        if id in requests {
          Ended(id);
        }
      case Drain(step) =>
        drain.Proceed(step);
    }

    /** The event at `i`, after those before it. */
    method HandleNext(events: seq<Event>, i: nat, ghost draining: bool)
      requires Valid() && i < |events| && drain.draining == DrainingBefore(draining, events, i)
      modifies this, drain
      ensures Valid() && drain.draining == DrainingBefore(draining, events, i + 1)
      ensures AllMove(draining, events, i, old(requests), requests)
    {
      ghost var before := requests;
      Handle(events[i]);
      DrainingStep(draining, events, i);
      forall id
        ensures MovesAt(draining, events, i, before, requests, id)
      {
      }
    }

    /** Over every interleaving of arrivals, messages, ends and drain steps:
        exactly the arrivals the middleware counts are counted, and a
        counted request is finished if and only if its last body chunk was
        sent or its app ended since; the count is that of those not
        finished; each finished one was finished exactly once; and a drain
        that returned did so within its timeout, completing only after a
        quiet period with no request active. `from` says after how many
        events each request was counted, 0 if it was before. */
    method Run(events: seq<Event>) returns (ghost from: map<nat, nat>)
      requires Valid()
      modifies this, drain
      ensures Valid() && drain.activeRequests == |Unfinished(requests)|
      ensures drain.idle <==> Unfinished(requests) == {}
      ensures drain.draining == DrainingBefore(old(drain.draining), events, |events|)
      ensures Explains(old(requests), old(drain.draining), events, |events|, requests, from)
      ensures forall id :: id in requests ==> finishes[id] == if requests[id].finished then 1 else 0
      ensures drain.draining && !drain.Waiting() ==> drain.beganAt <= drain.returnedAt <= drain.beganAt + drain.drainTimeout
      ensures drain.Waiting() ==> drain.clock <= drain.beganAt + drain.drainTimeout
      ensures drain.waiter.Complete? ==> drain.activeAtReturn == 0 && drain.startsAtReturn <= |drain.starts|
      ensures drain.waiter.Complete? ==>
        forall i :: 0 <= i < drain.startsAtReturn ==> drain.starts[i] <= drain.returnedAt - drain.quietSeconds
    {
      from := map id | id in requests :: 0;
      ghost var was, drainingAtStart := requests, drain.draining;
      for i := 0 to |events|
        invariant Valid() && drain.draining == DrainingBefore(drainingAtStart, events, i)
        invariant Explains(was, drainingAtStart, events, i, requests, from)
      {
        ghost var before := requests;
        HandleNext(events, i, drainingAtStart);
        ExplainsStep(was, drainingAtStart, events, i, before, from, requests);
        from := From(from, requests, i);
      }
      assert |Unfinished(requests)| == 0 <==> Unfinished(requests) == {};
    }
  }

  datatype Event =
    | Arrival(id: nat, scope: Scope)
    | Message(id: nat, isBody: bool, moreBody: bool, sent: bool)
    | End(id: nat)
    | Drain(step: DrainStep)

  datatype DrainStep = Sigterm | Resume | Wake | Timeout | Pass(seconds: real)

  // ----- what a run does to the requests -----

  /** The app ended, or the last body chunk was sent. */
  predicate Finishes(e: Event, id: nat) {
    e == End(id) || e == Message(id, true, false, true)
  }

  ghost predicate FinishedBetween(events: seq<Event>, from: nat, to: nat, id: nat)
    requires to <= |events|
  {
    exists j :: from <= j < to && Finishes(events[j], id)
  }

  ghost predicate DrainingBefore(draining: bool, events: seq<Event>, i: nat)
    requires i <= |events|
  {
    draining || exists j :: 0 <= j < i && events[j] == Drain(Sigterm)
  }

  lemma DrainingStep(draining: bool, events: seq<Event>, i: nat)
    requires i < |events|
    ensures DrainingBefore(draining, events, i + 1) <==> DrainingBefore(draining, events, i) || events[i] == Drain(Sigterm)
  {
  }

  /** The i-th event is an arrival of the request that is counted, if the
      request is not already. */
  ghost predicate Admitted(draining: bool, events: seq<Event>, i: nat, id: nat)
    requires i < |events|
  {
    events[i].Arrival? && events[i].id == id && Counts(events[i].scope, DrainingBefore(draining, events, i))
  }

  ghost predicate AdmittedAt(draining: bool, events: seq<Event>, i: nat)
    requires i < |events|
  {
    events[i].Arrival? && Admitted(draining, events, i, events[i].id)
  }

  /** The request was there at first, or from its counted arrival on; it is
      finished if it was at first, or if an event finished it since. */
  ghost predicate ExplainsAt(was: map<nat, Request>, draining: bool, events: seq<Event>, n: nat, requests: map<nat, Request>,
                             from: map<nat, nat>, id: nat)
    requires n <= |events| && id in requests && id in from
  {
    && from[id] <= n && (from[id] == 0 <==> id in was)
    && (from[id] > 0 ==> Admitted(draining, events, from[id] - 1, id))
    && (requests[id].finished <==> (id in was && was[id].finished) || FinishedBetween(events, from[id], n, id))
  }

  /** The first `n` events explain which requests there are and which of
      them are finished. */
  ghost predicate Explains(was: map<nat, Request>, draining: bool, events: seq<Event>, n: nat, requests: map<nat, Request>,
                           from: map<nat, nat>)
    requires n <= |events|
  {
    && from.Keys == requests.Keys && was.Keys <= requests.Keys
    && (forall id {:trigger ExplainsAt(was, draining, events, n, requests, from, id)} :: id in requests ==> ExplainsAt(was, draining, events, n, requests, from, id))
    && (forall i {:trigger AdmittedAt(draining, events, i)} :: 0 <= i < n && AdmittedAt(draining, events, i) ==> events[i].id in requests)
  }

  lemma FinishedStep(events: seq<Event>, from: nat, n: nat, id: nat)
    requires from <= n < |events|
    ensures FinishedBetween(events, from, n + 1, id) <==> FinishedBetween(events, from, n, id) || Finishes(events[n], id)
  {
  }

  /** What one event does to one request. */
  ghost predicate MovesAt(draining: bool, events: seq<Event>, n: nat, before: map<nat, Request>, after: map<nat, Request>, id: nat)
    requires n < |events|
  {
    && (id in before ==> id in after && (after[id].finished <==> before[id].finished || Finishes(events[n], id)))
    && (id !in before && id in after ==> !after[id].finished)
    && (id !in before ==> (id in after <==> Admitted(draining, events, n, id)))
  }

  lemma ExplainsStepAt(was: map<nat, Request>, draining: bool, events: seq<Event>, n: nat, before: map<nat, Request>,
                       from: map<nat, nat>, after: map<nat, Request>, next: map<nat, nat>, id: nat)
    requires n < |events| && id in after && id in next && MovesAt(draining, events, n, before, after, id)
    requires id in before ==> id in from && next[id] == from[id] && ExplainsAt(was, draining, events, n, before, from, id)
    requires id !in before ==> next[id] == n + 1 && id !in was
    ensures ExplainsAt(was, draining, events, n + 1, after, next, id)
  {
    if id in before {
      FinishedStep(events, from[id], n, id);
    }
  }

  ghost predicate AllMove(draining: bool, events: seq<Event>, n: nat, before: map<nat, Request>, after: map<nat, Request>)
    requires n < |events|
  {
    forall id {:trigger MovesAt(draining, events, n, before, after, id)} :: MovesAt(draining, events, n, before, after, id)
  }

  function From(from: map<nat, nat>, after: map<nat, Request>, n: nat): map<nat, nat> {
    map id | id in after :: if id in from then from[id] else n + 1
  }

  lemma ExplainsEach(was: map<nat, Request>, draining: bool, events: seq<Event>, n: nat, before: map<nat, Request>,
                     from: map<nat, nat>, after: map<nat, Request>, id: nat)
    requires n < |events| && Explains(was, draining, events, n, before, from) && AllMove(draining, events, n, before, after)
    requires id in after
    ensures ExplainsAt(was, draining, events, n + 1, after, From(from, after, n), id)
  {
    assert MovesAt(draining, events, n, before, after, id);
    ExplainsStepAt(was, draining, events, n, before, from, after, From(from, after, n), id);
  }

  lemma ExplainsArrival(was: map<nat, Request>, draining: bool, events: seq<Event>, n: nat, before: map<nat, Request>,
                        from: map<nat, nat>, after: map<nat, Request>, i: nat)
    requires n < |events| && Explains(was, draining, events, n, before, from) && AllMove(draining, events, n, before, after)
    requires i <= n && AdmittedAt(draining, events, i)
    ensures events[i].id in after
  {
    assert MovesAt(draining, events, n, before, after, events[i].id);
  }

  lemma ExplainsStep(was: map<nat, Request>, draining: bool, events: seq<Event>, n: nat, before: map<nat, Request>,
                     from: map<nat, nat>, after: map<nat, Request>)
    requires n < |events| && Explains(was, draining, events, n, before, from) && AllMove(draining, events, n, before, after)
    ensures Explains(was, draining, events, n + 1, after, From(from, after, n))
  {
    forall id | id in after
      ensures ExplainsAt(was, draining, events, n + 1, after, From(from, after, n), id)
    {
      ExplainsEach(was, draining, events, n, before, from, after, id);
    }
    forall id | id in was
      ensures id in after
    {
      assert MovesAt(draining, events, n, before, after, id);
    }
    forall i | 0 <= i < n + 1 && AdmittedAt(draining, events, i)
      ensures events[i].id in after
    {
      ExplainsArrival(was, draining, events, n, before, from, after, i);
    }
  }
}
