/** The lifespan teardown: its steps in order, each with a bounded wait,
    with an outcome for each: it returns, raises, or hangs. */
module Shutdown {
  import opened Common

  /** `ShutdownBudget`, in seconds. */
  datatype Budget = Budget(loops: real, mcpSessions: real, backgroundJobs: real, unwind: real, gatewayFlush: real, stores: real)
  {
    function WorstCaseSeconds(): real {
      loops + mcpSessions + backgroundJobs + unwind + gatewayFlush + stores
    }

    predicate Ok() {
      loops >= 0.0 && mcpSessions >= 0.0 && backgroundJobs >= 0.0 && unwind >= 0.0 && gatewayFlush >= 0.0 && stores >= 0.0
    }
  }

  const AUDIT_WRITE_TIMEOUT_SECONDS := 5.0
  const WAIT_AFTER_CANCEL_SECONDS := 10.0
  const ABANDON_TIMEOUT := 20.0

  const DEFAULT_BUDGET := Budget(
    2.0,
    (if AUDIT_WRITE_TIMEOUT_SECONDS > WAIT_AFTER_CANCEL_SECONDS then AUDIT_WRITE_TIMEOUT_SECONDS
     else WAIT_AFTER_CANCEL_SECONDS) + 1.0,
    ABANDON_TIMEOUT, 2.0, 5.0, 2.0)

  // ----- outcomes -----

  /** What `except Exception` catches, and what it does not
      (`CancelledError`). */
  datatype Raised = AnException | ACancellation

  /** How some work goes: it returns or raises after some time, or hangs. */
  datatype Work = Returns(after: real) | Raises(after: real, what: Raised) | Hangs
  {
    predicate Ok() {
      Hangs? || after >= 0.0
    }

    /** When it is over, if started at `start`. */
    function OverAt(start: real): Option<real> {
      if Hangs? then None else Some(start + after)
    }

    predicate OverWithin(seconds: real) {
      !Hangs? && after <= seconds
    }

    predicate RaisesWithin(seconds: real, e: Raised) {
      Raises? && after <= seconds && what == e
    }
  }

  predicate OverBy(t: Option<real>, time: real) {
    t.Some? && t.value <= time
  }

  /** A task, and how it winds down if it is cancelled. */
  datatype Task = Task(work: Work, unwind: Work)

  /** A background job: it runs from `start`, and is over then, if ever. */
  datatype Job = Job(start: real, over: Option<real>, unwind: Work)
  {
    predicate Ok() {
      (over.Some? ==> start <= over.value) && unwind.Ok()
    }

    predicate Running(t: real) {
      start <= t && !OverBy(over, t)
    }
  }

  datatype Step = RequestDrain | KeepSandboxes | CancelLoops | McpSessions | Runtimes | JobDrain | GatewayFlush | Stores

  /** What the app hands `shut_down`, as it will turn out to behave. */
  datatype Steps = Steps(
    drain: Work,                    // `drain.drain()`, which never hangs
    keepSandboxes: Option<Raised>,
    loops: seq<Task>,               // once cancelled
    mcpSessions: Task,
    runtimes: Task,
    otherJobs: seq<Job>,            // the other background jobs, those that jobs start included
    gatewayFlush: Work,             // ends at once when cancelled
    stores: Work)
  {
    predicate Ok() {
      && drain.Ok() && !drain.Hangs? && (forall t :: t in loops ==> t.work.Ok() && t.unwind.Ok())
      && mcpSessions.work.Ok() && mcpSessions.unwind.Ok() && runtimes.work.Ok() && runtimes.unwind.Ok()
      && (forall j :: j in otherJobs ==> j.Ok()) && gatewayFlush.Ok() && stores.Ok()
    }
  }

  /** `shut_down` itself is cancelled while it waits in a step, `after`
      seconds in, at the latest when that wait ends. */
  datatype Cancel = Cancel(during: Step, after: real)

  // ----- waits -----

  /** When `asyncio.wait` on tasks over at `ends` returns: when the last is
      over, or at the deadline. */
  function WaitAll(ends: seq<Option<real>>, now: real, deadline: real): (t: real)
    requires now <= deadline
    ensures now <= t <= deadline
    ensures t < deadline ==> forall i :: 0 <= i < |ends| ==> OverBy(ends[i], t)
    ensures (forall i :: 0 <= i < |ends| ==> OverBy(ends[i], deadline)) ==> forall i :: 0 <= i < |ends| ==> OverBy(ends[i], t)
    ensures t == now || exists i :: 0 <= i < |ends| && (ends[i] == Some(t) || (t == deadline && !OverBy(ends[i], t)))
  {
    if ends == [] then now
    else
      var last := |ends| - 1;
      var t := WaitAll(ends[..last], now, deadline);
      assert forall i :: 0 <= i < last ==> ends[..last][i] == ends[i];
      if !OverBy(ends[last], deadline) then deadline
      else if ends[last].value > t then ends[last].value
      else t
  }

  /** When the first of the running jobs is over, or the deadline. */
  function FirstOver(jobs: seq<Job>, t: real, deadline: real): (e: real)
    requires t < deadline
    ensures t < e <= deadline
    ensures forall i :: 0 <= i < |jobs| && jobs[i].Running(t) ==> !OverBy(jobs[i].over, deadline) || e <= jobs[i].over.value
    ensures e < deadline ==> exists i :: 0 <= i < |jobs| && jobs[i].Running(t) && jobs[i].over == Some(e)
  {
    if jobs == [] then deadline
    else
      var last := |jobs| - 1;
      var e := FirstOver(jobs[..last], t, deadline);
      assert forall i :: 0 <= i < last ==> jobs[..last][i] == jobs[i];
      if jobs[last].Running(t) && OverBy(jobs[last].over, e) then jobs[last].over.value else e
  }

  predicate AllIdle(jobs: seq<Job>, t: real) {
    forall i :: 0 <= i < |jobs| ==> !jobs[i].Running(t)
  }

  function NotOver(jobs: seq<Job>, t: real): set<nat> {
    set i: nat | i < |jobs| && !OverBy(jobs[i].over, t)
  }

  lemma NotOverShrinks(jobs: seq<Job>, t: real, next: real)
    requires t <= next
    ensures |NotOver(jobs, next)| <= |NotOver(jobs, t)|
    ensures (exists i :: 0 <= i < |jobs| && jobs[i].Running(t) && jobs[i].over == Some(next)) ==>
      |NotOver(jobs, next)| < |NotOver(jobs, t)|
  {
    SubsetSize(NotOver(jobs, next), NotOver(jobs, t));
    forall i: nat | i < |jobs| && jobs[i].Running(t) && jobs[i].over == Some(next)
      ensures i in NotOver(jobs, t) && i !in NotOver(jobs, next)
    {
    }
  }

  lemma {:induction false} SubsetSize(a: set<nat>, b: set<nat>)
    requires a <= b
    ensures |a| <= |b| && (a != b ==> |a| < |b|)
  {
    if a == {} {
    } else {
      var x :| x in a;
      SubsetSize(a - {x}, b - {x});
    }
  }

  /** `_wait_until_idle`: returns at the first moment no job runs, jobs that
      finishing jobs start included, or at the deadline. */
  method WaitUntilIdle(jobs: seq<Job>, start: real, deadline: real) returns (t: real, idle: bool)
    requires start <= deadline
    ensures start <= t <= deadline && (!idle ==> t == deadline)
    ensures idle <==> AllIdle(jobs, t)
    ensures forall u :: start <= u < t ==> !AllIdle(jobs, u)
  {
    t := start;
    while true
      invariant start <= t <= deadline
      invariant forall u :: start <= u < t ==> !AllIdle(jobs, u)
      decreases |NotOver(jobs, t)|, t < deadline
    {
      if AllIdle(jobs, t) {
        return t, true;
      }
      if deadline - t <= 0.0 {
        return t, false;
      }
      var next := FirstOver(jobs, t, deadline);
      NotOverShrinks(jobs, t, next);
      ghost var i :| 0 <= i < |jobs| && jobs[i].Running(t);
      assert forall u :: t <= u < next ==> jobs[i].Running(u);
      t := next;
    }
  }

  // ----- what leaves `shut_down` -----

  function Order(isDraining: bool): seq<Step> {
    (if isDraining then [] else [RequestDrain])
    + [KeepSandboxes, CancelLoops, McpSessions, Runtimes, JobDrain, GatewayFlush, Stores]
  }

  /** The steps `shut_down` waits in, so that it can be cancelled there. */
  predicate Waits(steps: Steps, step: Step) {
    match step
    case KeepSandboxes => false
    case CancelLoops => steps.loops != []
    case Runtimes => false
    case _ => true
  }

  predicate Lands(steps: Steps, cancel: Option<Cancel>, step: Step) {
    cancel.Some? && cancel.value.during == step && Waits(steps, step)
  }

  /** Something raised in the step leaves `shut_down`. */
  predicate Escapes(steps: Steps, budget: Budget, cancel: Option<Cancel>, step: Step) {
    || Lands(steps, cancel, step)
    || (step == RequestDrain && steps.drain.Raises?)
    || (step == KeepSandboxes && steps.keepSandboxes == Some(ACancellation))
    || (step == GatewayFlush && steps.gatewayFlush.RaisesWithin(budget.gatewayFlush, ACancellation))
  }

  /** The step fails while `shut_down` waits for it. */
  predicate Fails(steps: Steps, budget: Budget, step: Step) {
    match step
    case KeepSandboxes => steps.keepSandboxes == Some(AnException)
    case McpSessions => steps.mcpSessions.work.RaisesWithin(budget.mcpSessions, AnException)
    case GatewayFlush =>
      steps.gatewayFlush.RaisesWithin(budget.gatewayFlush, AnException) || !steps.gatewayFlush.OverWithin(budget.gatewayFlush)
    case Stores => steps.stores.RaisesWithin(budget.stores, AnException)
    case _ => false
  }

  /** The failures logged: those of the steps that ran and that nothing
      left. */
  ghost predicate LogsFailures(steps: Steps, budget: Budget, cancel: Option<Cancel>, ran: seq<Step>, failed: set<Step>) {
    forall s :: s in failed <==> s in ran && Fails(steps, budget, s) && !Escapes(steps, budget, cancel, s)
  }

  /** `ran` is the order, cut after the first step that something leaves. */
  ghost predicate CutAtEscape(order: seq<Step>, ran: seq<Step>, steps: Steps, budget: Budget, cancel: Option<Cancel>) {
    && ran != [] && ran <= order
    && (forall i :: 0 <= i < |ran| - 1 ==> !Escapes(steps, budget, cancel, ran[i]))
    && (|ran| < |order| ==> Escapes(steps, budget, cancel, ran[|ran| - 1]))
  }

  /** The steps up to some point ran, the last with the outcome `raised`,
      and the failures on the way were logged. */
  ghost predicate Stage(order: seq<Step>, ran: seq<Step>, failed: set<Step>, raised: bool, steps: Steps, budget: Budget,
                        cancel: Option<Cancel>)
  {
    && LogsFailures(steps, budget, cancel, ran, failed) && ran <= order
    && (raised ==> CutAtEscape(order, ran, steps, budget, cancel) && Escapes(steps, budget, cancel, ran[|ran| - 1]))
    && (!raised ==> forall i :: 0 <= i < |ran| ==> !Escapes(steps, budget, cancel, ran[i]))
  }

  ghost predicate DistinctSteps(order: seq<Step>) {
    forall i, j :: 0 <= i < j < |order| ==> order[i] != order[j]
  }

  lemma StageStep(order: seq<Step>, ran: seq<Step>, step: Step, failed: set<Step>, failed': set<Step>, raised: bool,
                  steps: Steps, budget: Budget, cancel: Option<Cancel>)
    requires DistinctSteps(order) && Stage(order, ran, failed, false, steps, budget, cancel)
    requires |ran| < |order| && order[|ran|] == step && (raised <==> Escapes(steps, budget, cancel, step))
    requires failed' == failed + if !raised && Fails(steps, budget, step) then {step} else {}
    ensures Stage(order, ran + [step], failed', raised, steps, budget, cancel)
  {
    assert forall i :: 0 <= i < |ran| ==> ran[i] == order[i];
  }

  /** A wait for the work started at `start` ends at `now`: the work is then
      over, or the budget is, and the work is not. */
  predicate EndsWait(work: Work, start: real, budget: real, now: real) {
    work.OverAt(start) == Some(now) || (now == start + budget && !OverBy(work.OverAt(start), now))
  }

  /** The work started at `start` is over by `now`, or held for the job
      drain as running until its end. */
  ghost predicate OverOrHeld(work: Work, start: real, held: seq<Job>, now: real) {
    OverBy(work.OverAt(start), now) || exists j :: j in held && j.over == work.OverAt(start)
  }

  class Teardown {
    const steps: Steps
    const budget: Budget
    const cancel: Option<Cancel>
    var clock: real
    var log: seq<Step>
    /** The steps whose failure was logged. */
    var failed: set<Step>
    /** `_left_to_the_job_drain` */
    var held: seq<Job>

    constructor (steps: Steps, budget: Option<Budget>, cancel: Option<Cancel>, clock: real)
      requires steps.Ok() && (budget.Some? ==> budget.value.Ok()) && (cancel.Some? ==> cancel.value.after >= 0.0)
      ensures Valid() && this.steps == steps && this.cancel == cancel && this.clock == clock
      ensures this.budget == if budget.Some? then budget.value else DEFAULT_BUDGET
      ensures log == [] && failed == {} && held == []
    {
      this.steps, this.cancel, this.clock := steps, cancel, clock;
      this.budget := if budget.Some? then budget.value else DEFAULT_BUDGET;
      log, failed, held := [], {}, [];
    }

    predicate Valid()
      reads this
    {
      steps.Ok() && budget.Ok() && (cancel.Some? ==> cancel.value.after >= 0.0) && forall j :: j in held ==> j.Ok()
    }

    /** One wait of a step, over at `until` unless a cancellation lands. */
    method Await(step: Step, until: real) returns (raised: Option<Raised>)
      requires Valid() && clock <= until && Waits(steps, step)
      modifies this`clock
      ensures Valid() && old(clock) <= clock <= until
      ensures raised == if Lands(steps, cancel, step) then Some(ACancellation) else None
      ensures raised.None? ==> clock == until
      ensures raised.Some? ==> clock == if old(clock) + cancel.value.after < until then old(clock) + cancel.value.after else until
    {
      if Lands(steps, cancel, step) {
        clock := if clock + cancel.value.after < until then clock + cancel.value.after else until;
        return Some(ACancellation);
      }
      clock := until;
      return None;
    }

    /** `if not drain.is_draining: await drain.drain()` */
    method DrainRequests() returns (raised: Option<Raised>)
      requires Valid()
      modifies this`clock, this`log
      ensures Valid() && log == old(log) + [RequestDrain] && clock >= old(clock)
      ensures raised.Some? <==> Escapes(steps, budget, cancel, RequestDrain)
      ensures raised.None? ==> clock == old(clock) + steps.drain.after
    {
      log := log + [RequestDrain];
      raised := Await(RequestDrain, steps.drain.OverAt(clock).value);
      if raised.Some? {
        return;
      }
      raised := if steps.drain.Raises? then Some(steps.drain.what) else None;
    }

    /** `keep_sandboxes`, in a `try` that catches what is an `Exception`. */
    method MarkSandboxes() returns (raised: Option<Raised>)
      requires Valid()
      modifies this`log, this`failed
      ensures Valid() && log == old(log) + [KeepSandboxes]
      ensures failed == old(failed) + if Fails(steps, budget, KeepSandboxes) then {KeepSandboxes} else {}
      ensures raised.Some? <==> Escapes(steps, budget, cancel, KeepSandboxes)
    {
      log := log + [KeepSandboxes];
      match steps.keepSandboxes
      case None =>
        raised := None;
      case Some(AnException) =>
        failed := failed + {KeepSandboxes};
        raised := None;
      case Some(ACancellation) =>
        raised := Some(ACancellation);
    }

    /** The tasks not over are left to the job drain. */
    method HoldLeft(tasks: seq<Task>, ends: seq<Option<real>>)
      requires Valid() && |ends| == |tasks| && forall t :: t in tasks ==> t.unwind.Ok()
      modifies this`held
      ensures Valid() && old(held) <= held
      ensures forall j :: j in held ==> j in old(held) || j.start <= clock
      ensures forall i :: 0 <= i < |tasks| ==> OverBy(ends[i], clock) || Job(clock, ends[i], tasks[i].unwind) in held
    {
      for i := 0 to |tasks|
        invariant Valid() && old(held) <= held
        invariant forall j :: j in held ==> j in old(held) || j.start <= clock
        invariant forall j :: 0 <= j < i ==> OverBy(ends[j], clock) || Job(clock, ends[j], tasks[j].unwind) in held
      {
        assert tasks[i] in tasks;
        if !OverBy(ends[i], clock) {
          held := held + [Job(clock, ends[i], tasks[i].unwind)];
        }
      }
    }

    /** The periodic loops, cancelled and waited for; those that still run
        are held. What a loop raises stays in its task. */
    method StopLoops() returns (raised: Option<Raised>)
      requires Valid()
      modifies this`clock, this`log, this`held
      ensures Valid() && log == old(log) + [CancelLoops] && old(held) <= held
      ensures old(clock) <= clock <= old(clock) + budget.loops
      ensures raised.Some? <==> Escapes(steps, budget, cancel, CancelLoops)
      ensures raised.None? ==> clock == old(clock) || exists t :: t in steps.loops && EndsWait(t.work, old(clock), budget.loops, clock)
      ensures raised.None? && (exists t :: t in steps.loops && t.work.Hangs?) ==> clock == old(clock) + budget.loops
      ensures forall j :: j in held ==> j in old(held) || j.start <= clock
      ensures raised.None? ==> forall t :: t in steps.loops ==>
        OverBy(t.work.OverAt(old(clock)), clock) || Job(clock, t.work.OverAt(old(clock)), t.unwind) in held
    {
      log := log + [CancelLoops];
      raised := None;
      var start, loops := clock, steps.loops;
      if loops == [] {
        return;
      }
      var ends := seq(|loops|, i requires 0 <= i < |loops| => loops[i].work.OverAt(start));
      raised := Await(CancelLoops, WaitAll(ends, start, start + budget.loops));
      if raised.Some? {
        return;
      }
      if clock != start {
        var k :| 0 <= k < |ends| && (ends[k] == Some(clock) || (clock == start + budget.loops && !OverBy(ends[k], clock)));
        assert loops[k] in loops && EndsWait(loops[k].work, start, budget.loops, clock);
      }
      HoldLeft(loops, ends);
      assert forall k :: 0 <= k < |loops| ==> ends[k] == loops[k].work.OverAt(start);
      forall t | t in loops && t.work.Hangs?
        ensures clock == start + budget.loops
      {
        var k :| 0 <= k < |loops| && loops[k] == t;
        assert !OverBy(ends[k], clock);
      }
    }

    /** `_run_step`: the work runs in a task of its own, in which
        `_logging_failure` logs what is an `Exception`; nothing it raises
        comes out of the wait. Work still running then is left running. */
    method RunStep(step: Step, work: Work, timeout: real) returns (left: Option<Option<real>>, raised: Option<Raised>)
      requires Valid() && work.Ok() && timeout >= 0.0 && Waits(steps, step)
      modifies this`clock, this`log, this`failed
      ensures Valid() && log == old(log) + [step] && old(clock) <= clock <= old(clock) + timeout
      ensures raised.Some? <==> Lands(steps, cancel, step)
      ensures raised.None? ==> left == if work.OverWithin(timeout) then None else Some(work.OverAt(old(clock)))
      ensures raised.None? ==>
        clock == if work.OverWithin(timeout) then old(clock) + work.after else old(clock) + timeout
      ensures failed == old(failed) + if raised.None? && work.RaisesWithin(timeout, AnException) then {step} else {}
    {
      log := log + [step];
      left := None;
      var over, deadline := work.OverAt(clock), clock + timeout;
      raised := Await(step, if OverBy(over, deadline) then over.value else deadline);
      if raised.Some? {
        return;
      }
      if !OverBy(over, deadline) {
        left := Some(over);
      } else if work.Raises? && work.what == AnException {
        failed := failed + {step};
      }
    }

    /** `drain_every_set`: waits until no job runs, then cancels what still
        does and gives it time to wind down. Jobs of the sets cancelled at
        once are over when that cancellation ends them. */
    method DrainEverySet(jobs: seq<Job>) returns (cancelled: bool, raised: Option<Raised>)
      requires Valid() && forall j :: j in jobs ==> j.Ok()
      modifies this`clock, this`log
      ensures Valid() && log == old(log) + [JobDrain]
      ensures old(clock) <= clock <= old(clock) + budget.backgroundJobs + (if cancelled then budget.unwind else 0.0)
      ensures raised.Some? <==> Lands(steps, cancel, JobDrain)
      ensures raised.None? && !cancelled ==> AllIdle(jobs, clock) && forall u :: old(clock) <= u < clock ==> !AllIdle(jobs, u)
      ensures forall j :: j in jobs && j.start <= old(clock) && j.over.None? ==> cancelled
      ensures forall j :: j in jobs && j.start <= old(clock) && j.over.None? && j.unwind.Hangs? && raised.None? ==>
        clock == old(clock) + budget.backgroundJobs + budget.unwind
    {
      log := log + [JobDrain];
      var start := clock;
      var idleAt, idle := WaitUntilIdle(jobs, start, start + budget.backgroundJobs);
      cancelled := !idle;
      var until := idleAt;
      var leftovers := Filter(jobs, RunningAt(idleAt));
      FilterIn(jobs, RunningAt(idleAt));
      if cancelled {
        var ends := seq(|leftovers|, i requires 0 <= i < |leftovers| => leftovers[i].unwind.OverAt(idleAt));
        until := WaitAll(ends, idleAt, idleAt + budget.unwind);
        forall j | j in leftovers && j.unwind.Hangs?
          ensures until == idleAt + budget.unwind
        {
          var k :| 0 <= k < |leftovers| && leftovers[k] == j;
          assert !OverBy(ends[k], until);
        }
      }
      forall j | j in jobs && j.start <= start && j.over.None?
        ensures cancelled && j in leftovers
      {
        assert j.Running(idleAt) && RunningAt(idleAt)(j);
      }
      raised := Await(JobDrain, until);
    }

    /** The flush, in `wait_for` and in a `try` that catches what is an
        `Exception`, the timeout included. */
    method FlushSignIns() returns (raised: Option<Raised>)
      requires Valid()
      modifies this`clock, this`log, this`failed
      ensures Valid() && log == old(log) + [GatewayFlush]
      ensures old(clock) <= clock <= old(clock) + budget.gatewayFlush
      ensures raised.Some? <==> Escapes(steps, budget, cancel, GatewayFlush)
      ensures raised.None? ==>
        clock == old(clock) + (if steps.gatewayFlush.OverWithin(budget.gatewayFlush) then steps.gatewayFlush.after else budget.gatewayFlush)
      ensures failed == old(failed) + if raised.None? && Fails(steps, budget, GatewayFlush) then {GatewayFlush} else {}
    {
      log := log + [GatewayFlush];
      var flush, deadline := steps.gatewayFlush, clock + budget.gatewayFlush;
      var over := flush.OverAt(clock);
      raised := Await(GatewayFlush, if OverBy(over, deadline) then over.value else deadline);
      if raised.None? {
        raised := if !OverBy(over, deadline) then Some(AnException) else if flush.Raises? then Some(flush.what) else None;
      }
      if raised == Some(AnException) {
        failed := failed + {GatewayFlush};
        raised := None;
      }
    }

    /** How far the teardown got. */
    ghost predicate Reached(order: seq<Step>, raised: Option<Raised>)
      reads this
    {
      Valid() && DistinctSteps(order) && Stage(order, log, failed, raised.Some?, steps, budget, cancel)
    }

    /** The sandboxes marked, the loops stopped. */
    method StopEarly(ghost order: seq<Step>) returns (raised: Option<Raised>)
      requires Reached(order, None) && |log| + 2 < |order| && order[|log|] == KeepSandboxes && order[|log| + 1] == CancelLoops
      modifies this
      ensures Reached(order, raised) && old(clock) <= clock <= old(clock) + budget.loops
      ensures raised.None? ==> log == old(log) + [KeepSandboxes, CancelLoops]
      ensures raised.None? && (exists t :: t in steps.loops && t.work.Hangs?) ==> clock == old(clock) + budget.loops
      ensures forall j :: j in held ==> j in old(held) || j.start <= clock
      ensures raised.None? ==> forall t :: t in steps.loops ==> OverOrHeld(t.work, old(clock), held, clock)
    {
      raised := MarkSandboxes();
      StageStep(order, old(log), KeepSandboxes, old(failed), failed, raised.Some?, steps, budget, cancel);
      if raised.None? {
        ghost var ran := log;
        raised := StopLoops();
        StageStep(order, ran, CancelLoops, failed, failed, raised.Some?, steps, budget, cancel);
      }
    }

    /** The sessions closed, the runtimes stopping: work that still runs is
        held for the job drain. */
    method StopLate(ghost order: seq<Step>) returns (raised: Option<Raised>)
      requires Reached(order, None) && |log| + 2 < |order| && order[|log|] == McpSessions && order[|log| + 1] == Runtimes
      requires forall j :: j in held ==> j.start <= clock
      modifies this
      ensures Reached(order, raised) && old(clock) <= clock <= old(clock) + budget.mcpSessions
      ensures raised.None? ==> log == old(log) + [McpSessions, Runtimes]
      ensures forall j :: j in held ==> j.start <= clock
      ensures raised.None? && steps.mcpSessions.work.Hangs? ==>
        clock == old(clock) + budget.mcpSessions && Job(clock, None, steps.mcpSessions.unwind) in held
      ensures old(held) <= held
      ensures raised.None? ==> OverOrHeld(steps.mcpSessions.work, old(clock), held, clock)
      ensures raised.None? ==> Job(clock, steps.runtimes.work.OverAt(clock), steps.runtimes.unwind) in held
    {
      var left;
      left, raised := RunStep(McpSessions, steps.mcpSessions.work, budget.mcpSessions);
      StageStep(order, old(log), McpSessions, old(failed), failed, raised.Some?, steps, budget, cancel);
      if raised.None? {
        if left.Some? {
          held := held + [Job(clock, left.value, steps.mcpSessions.unwind)];
        }
        // spawned and held, not waited for here
        StageStep(order, log, Runtimes, failed, failed, false, steps, budget, cancel);
        log := log + [Runtimes];
        held := held + [Job(clock, steps.runtimes.work.OverAt(clock), steps.runtimes.unwind)];
      }
    }

    /** The job drain. */
    method DrainJobs(ghost order: seq<Step>) returns (cancelled: bool, raised: Option<Raised>)
      requires Reached(order, None) && |log| < |order| && order[|log|] == JobDrain
      requires forall j :: j in held ==> j.start <= clock
      modifies this`clock, this`log
      ensures Reached(order, raised) && log == old(log) + [JobDrain]
      ensures old(clock) <= clock <= old(clock) + budget.backgroundJobs + budget.unwind
      ensures raised.None? && !cancelled ==>
        AllIdle(steps.otherJobs, clock) && forall j :: j in held ==> OverBy(j.over, clock)
      ensures forall j :: j in held && j.over.None? && j.unwind.Hangs? && raised.None? ==>
        clock == old(clock) + budget.backgroundJobs + budget.unwind
    {
      var jobs := held + steps.otherJobs;
      cancelled, raised := DrainEverySet(jobs);
      StageStep(order, old(log), JobDrain, failed, failed, raised.Some?, steps, budget, cancel);
      if raised.None? && !cancelled {
        assert forall i :: 0 <= i < |held| ==> jobs[i] == held[i];
        assert forall i :: 0 <= i < |steps.otherJobs| ==> jobs[|held| + i] == steps.otherJobs[i];
      }
    }

    /** The flush, then the stores. */
    method CloseUp(ghost order: seq<Step>) returns (raised: Option<Raised>)
      requires Reached(order, None) && |log| + 2 == |order| && order[|log|] == GatewayFlush && order[|log| + 1] == Stores
      modifies this`clock, this`log, this`failed
      ensures Reached(order, raised)
      ensures old(clock) <= clock <= old(clock) + budget.gatewayFlush + budget.stores
      ensures raised.None? ==> log == order
      ensures raised.None? && steps.gatewayFlush.Hangs? && steps.stores.Hangs? ==>
        clock == old(clock) + budget.gatewayFlush + budget.stores
    {
      raised := FlushSignIns();
      StageStep(order, old(log), GatewayFlush, old(failed), failed, raised.Some?, steps, budget, cancel);
      if raised.None? {
        ghost var ran, before := log, failed;
        var left;
        left, raised := RunStep(Stores, steps.stores, budget.stores);
        StageStep(order, ran, Stores, before, failed, raised.Some?, steps, budget, cancel);
      }
    }

    /** Everything stopped or held. */
    method StopAll(ghost order: seq<Step>) returns (raised: Option<Raised>, closing: real)
      requires Reached(order, None) && held == [] && |log| + 4 < |order|
      requires order[|log|..|log| + 4] == [KeepSandboxes, CancelLoops, McpSessions, Runtimes]
      modifies this
      ensures Reached(order, raised) && old(clock) <= clock <= old(clock) + budget.loops + budget.mcpSessions
      ensures raised.None? ==> |log| == old(|log|) + 4
      ensures forall j :: j in held ==> j.start <= clock
      ensures raised.None? && (exists t :: t in steps.loops && t.work.Hangs?) && steps.mcpSessions.work.Hangs? ==>
        clock == old(clock) + budget.loops + budget.mcpSessions && Job(clock, None, steps.mcpSessions.unwind) in held
      ensures old(clock) <= closing <= clock && closing <= old(clock) + budget.loops && clock <= closing + budget.mcpSessions
      ensures raised.None? ==> forall t :: t in steps.loops ==> OverOrHeld(t.work, old(clock), held, clock)
      ensures raised.None? ==> OverOrHeld(steps.mcpSessions.work, closing, held, clock)
      ensures raised.None? ==> Job(clock, steps.runtimes.work.OverAt(clock), steps.runtimes.unwind) in held
    {
      ghost var next := order[|log|..|log| + 4];
      assert next[0] == order[|log|] && next[1] == order[|log| + 1] && next[2] == order[|log| + 2] && next[3] == order[|log| + 3];
      raised := StopEarly(order);
      closing := clock;
      ghost var early := held;
      if raised.None? {
        raised := StopLate(order);
        forall t | raised.None? && t in steps.loops
          ensures OverOrHeld(t.work, old(clock), held, clock)
        {
          assert OverOrHeld(t.work, old(clock), early, closing);
          assert forall j :: j in early ==> j in held;
        }
      }
    }

    /** The jobs waited for, then the flush and the stores. */
    method Finish(ghost order: seq<Step>) returns (raised: Option<Raised>, flushStarted: real, cancelled: bool)
      requires Reached(order, None) && |log| + 3 == |order| && order[|log|..] == [JobDrain, GatewayFlush, Stores]
      requires forall j :: j in held ==> j.start <= clock
      modifies this`clock, this`log, this`failed
      ensures Reached(order, raised)
      ensures old(clock) <= flushStarted <= clock
      ensures clock <= old(clock) + budget.backgroundJobs + budget.unwind + budget.gatewayFlush + budget.stores
      ensures raised.None? ==> log == order
      ensures raised.None? && !cancelled ==>
        AllIdle(steps.otherJobs, flushStarted) && forall j :: j in held ==> OverBy(j.over, flushStarted)
      ensures forall j :: j in held && j.over.None? && j.unwind.Hangs? && raised.None? && steps.gatewayFlush.Hangs? && steps.stores.Hangs? ==>
        clock == old(clock) + budget.backgroundJobs + budget.unwind + budget.gatewayFlush + budget.stores
    {
      ghost var next := order[|log|..];
      assert next[0] == order[|log|] && next[1] == order[|log| + 1] && next[2] == order[|log| + 2];
      cancelled, raised := DrainJobs(order);
      flushStarted := clock;
      if raised.None? {
        raised := CloseUp(order);
      }
    }

    /** All that follows the request drain. */
    method TearDown(ghost order: seq<Step>)
      returns (raised: Option<Raised>, closing: real, stopping: real, flushStarted: real, cancelled: bool)
      requires Reached(order, None) && held == [] && |log| + 7 == |order|
      requires order[|log|..] == [KeepSandboxes, CancelLoops, McpSessions, Runtimes, JobDrain, GatewayFlush, Stores]
      modifies this
      ensures Reached(order, raised)
      ensures old(clock) <= clock <= old(clock) + budget.WorstCaseSeconds()
      ensures raised.None? ==> log == order && old(clock) <= closing <= stopping <= flushStarted <= clock
      ensures raised.None? ==> closing <= old(clock) + budget.loops && stopping <= closing + budget.mcpSessions
      ensures raised.None? && !cancelled ==>
        && AllIdle(steps.otherJobs, flushStarted) && (forall j :: j in held ==> OverBy(j.over, flushStarted))
        && (forall t :: t in steps.loops ==> OverBy(t.work.OverAt(old(clock)), flushStarted))
        && OverBy(steps.mcpSessions.work.OverAt(closing), flushStarted)
        && OverBy(steps.runtimes.work.OverAt(stopping), flushStarted)
      ensures raised.None? && (exists t :: t in steps.loops && t.work.Hangs?)
        && steps.mcpSessions.work.Hangs? && steps.mcpSessions.unwind.Hangs? && steps.gatewayFlush.Hangs? && steps.stores.Hangs?
        ==> clock == old(clock) + budget.WorstCaseSeconds()
    {
      ghost var rest := order[|log|..];
      assert order[|log|..|log| + 4] == rest[..4];
      assert order[|log| + 4..] == rest[4..];
      raised, closing := StopAll(order);
      stopping, flushStarted, cancelled := clock, clock, false;
      if raised.None? {
        raised, flushStarted, cancelled := Finish(order);
      }
    }

    /** The request drain, unless the signal's drain is under way. */
    method DrainFirst(isDraining: bool, ghost order: seq<Step>) returns (raised: Option<Raised>)
      requires Valid() && log == [] && failed == {} && order == Order(isDraining)
      modifies this`clock, this`log
      ensures Reached(order, raised) && clock >= old(clock)
      ensures raised.None? ==> |log| + 7 == |order|
      ensures order[|order| - 7..] == [KeepSandboxes, CancelLoops, McpSessions, Runtimes, JobDrain, GatewayFlush, Stores]
      ensures isDraining ==> clock == old(clock)
      ensures raised.None? ==> clock == old(clock) + if isDraining then 0.0 else steps.drain.after
    {
      raised := None;
      if !isDraining {
        raised := DrainRequests();
        StageStep(order, [], RequestDrain, {}, {}, raised.Some?, steps, budget, cancel);
      }
    }

    /** `shut_down`. The steps run in order, each to its outcome, up to the
        first that something leaves; what failed before is logged. The
        waits after the request drain total at most the worst case, reached
        when everything hangs. The loops are cancelled at `drained`, the
        sessions close from `closing`, the runtimes stop from `stopping`;
        when the flush starts, all of these and every other job are over,
        or the job drain cancelled what was not. */
    method ShutDown(isDraining: bool)
      returns (raised: Option<Raised>, drained: real, closing: real, stopping: real, flushStarted: real, cancelled: bool)
      requires Valid() && log == [] && failed == {} && held == []
      modifies this
      ensures CutAtEscape(Order(isDraining), log, steps, budget, cancel)
      ensures raised.Some? <==> Escapes(steps, budget, cancel, log[|log| - 1])
      ensures LogsFailures(steps, budget, cancel, log, failed)
      ensures drained <= clock <= drained + budget.WorstCaseSeconds()
      ensures isDraining ==> drained == old(clock)
      ensures raised.None? ==> drained == old(clock) + if isDraining then 0.0 else steps.drain.after
      ensures raised.None? ==> log == Order(isDraining) && drained <= closing <= stopping <= flushStarted <= clock
      ensures raised.None? ==> closing <= drained + budget.loops && stopping <= closing + budget.mcpSessions
      ensures raised.None? && !cancelled ==>
        && AllIdle(steps.otherJobs, flushStarted) && (forall j :: j in held ==> OverBy(j.over, flushStarted))
        && (forall t :: t in steps.loops ==> OverBy(t.work.OverAt(drained), flushStarted))
        && OverBy(steps.mcpSessions.work.OverAt(closing), flushStarted)
        && OverBy(steps.runtimes.work.OverAt(stopping), flushStarted)
      ensures raised.None? && (exists t :: t in steps.loops && t.work.Hangs?)
        && steps.mcpSessions.work.Hangs? && steps.mcpSessions.unwind.Hangs? && steps.gatewayFlush.Hangs? && steps.stores.Hangs?
        ==> clock == drained + budget.WorstCaseSeconds()
    {
      ghost var order := Order(isDraining);
      cancelled := false;
      raised := DrainFirst(isDraining, order);
      drained, closing, stopping, flushStarted := clock, clock, clock, clock;
      if raised.None? {
        raised, closing, stopping, flushStarted, cancelled := TearDown(order);
      }
    }
  }

  lemma CutBefore(order: seq<Step>, ran: seq<Step>, steps: Steps, budget: Budget, cancel: Option<Cancel>)
    requires DistinctSteps(order) && CutAtEscape(order, ran, steps, budget, cancel)
    ensures order[|order| - 1] in ran <==> forall i :: 0 <= i < |order| - 1 ==> !Escapes(steps, budget, cancel, order[i])
  {
    assert forall i :: 0 <= i < |ran| ==> ran[i] == order[i];
  }

  /** Nothing leaves the steps before the stores. */
  predicate QuietBefore(isDraining: bool, steps: Steps, budget: Budget, cancel: Option<Cancel>) {
    && (isDraining || !Escapes(steps, budget, cancel, RequestDrain))
    && !Escapes(steps, budget, cancel, KeepSandboxes) && !Escapes(steps, budget, cancel, CancelLoops)
    && !Escapes(steps, budget, cancel, McpSessions) && !Escapes(steps, budget, cancel, Runtimes)
    && !Escapes(steps, budget, cancel, JobDrain) && !Escapes(steps, budget, cancel, GatewayFlush)
  }

  lemma QuietIsOrder(order: seq<Step>, isDraining: bool, steps: Steps, budget: Budget, cancel: Option<Cancel>)
    requires order == Order(isDraining)
    ensures QuietBefore(isDraining, steps, budget, cancel) <==>
      forall i :: 0 <= i < |order| - 1 ==> !Escapes(steps, budget, cancel, order[i])
  {
    var n := |order| - 7;
    assert n == if isDraining then 0 else 1;
    assert order[n] == KeepSandboxes && order[n + 1] == CancelLoops && order[n + 2] == McpSessions;
    assert order[n + 3] == Runtimes && order[n + 4] == JobDrain && order[n + 5] == GatewayFlush;
    assert !isDraining ==> order[0] == RequestDrain;
  }

  /** The stores start to close if and only if nothing leaves the steps
      before: the drain does not raise, what marks the sandboxes and the
      flush raise nothing but an `Exception`, and no cancellation lands in
      an earlier wait. */
  lemma ReachesStoresIff(isDraining: bool, ran: seq<Step>, steps: Steps, budget: Budget, cancel: Option<Cancel>)
    requires CutAtEscape(Order(isDraining), ran, steps, budget, cancel)
    ensures Stores in ran <==>
      && (isDraining || !steps.drain.Raises?)
      && steps.keepSandboxes != Some(ACancellation)
      && !steps.gatewayFlush.RaisesWithin(budget.gatewayFlush, ACancellation)
      && (cancel.None? || cancel.value.during == Stores || !Waits(steps, cancel.value.during)
          || (isDraining && cancel.value.during == RequestDrain))
  {
    var order := Order(isDraining);
    assert DistinctSteps(order) && order[|order| - 1] == Stores;
    CutBefore(order, ran, steps, budget, cancel);
    QuietIsOrder(order, isDraining, steps, budget, cancel);
    QuietIff(isDraining, steps, budget, cancel);
  }

  lemma QuietIff(isDraining: bool, steps: Steps, budget: Budget, cancel: Option<Cancel>)
    ensures QuietBefore(isDraining, steps, budget, cancel) <==>
      && (isDraining || !steps.drain.Raises?)
      && steps.keepSandboxes != Some(ACancellation)
      && !steps.gatewayFlush.RaisesWithin(budget.gatewayFlush, ACancellation)
      && (cancel.None? || cancel.value.during == Stores || !Waits(steps, cancel.value.during)
          || (isDraining && cancel.value.during == RequestDrain))
  {
  }

  /** With the default budget the teardown waits at most 42 seconds after
      the request drain. */
  method ShutDownByDefault(steps: Steps, isDraining: bool, clock: real) returns (waited: real)
    requires steps.Ok()
    ensures 0.0 <= waited <= 42.0
  {
    var teardown := new Teardown(steps, None, None, clock);
    var raised, drained, closing, stopping, flushStarted, cancelled := teardown.ShutDown(isDraining);
    waited := teardown.clock - drained;
  }

  function RunningAt(t: real): Job -> bool {
    (j: Job) => j.Running(t)
  }
}
