/** `WorkerHost` in its own form: coroutines that update counters step by step. The functions of
    `Supervision` say what each stretch between two awaits does; here the loops are shown to do
    exactly that, for every script of what a worker can meet. */
module WorkerHostCode {
  import opened Common
  import opened Supervision
  import opened HostRuns

  /** How a coroutine gave control back: it returned, an exception left it, or it is still
      suspended at an await when the script ends. */
  datatype End = Returned | Threw | Suspended

  class Counters {
    var passes: nat
    var failures: nat
    var abandoned: bool

    constructor ()
      ensures passes == 0 && failures == 0 && !abandoned
    {
      passes, failures, abandoned := 0, 0, false;
    }
  }

  /** The event loop as one worker sees it: the shared stop event, and what each await resolves to. */
  class EventLoop {
    var stopping: bool
    var faults: seq<bool>
    var script: seq<Encounter>
    ghost var trail: Trail

    constructor (script: seq<Encounter>)
      ensures !stopping && faults == [] && this.script == script && trail == Start
    {
      stopping, faults, this.script, trail := false, [], script, Start;
    }

    method Await() returns (ending: Option<Ending>)
      modifies this
      ensures trail == old(trail)
      ensures old(script) == [] ==> ending.None? && script == [] && stopping == old(stopping) && faults == old(faults)
      ensures old(script) != [] ==>
                && ending == Some(old(script[0].moment.ending)) && faults == old(script[0].moment.faults)
                && stopping == (old(stopping) || old(script[0].stopArrived)) && script == old(script[1..])
    {
      if script == [] {
        return None;
      }
      var now := script[0];
      stopping, faults, script := stopping || now.stopArrived, now.moment.faults, script[1..];
      return Some(now.moment.ending);
    }

    /** A call that may raise: reports whether it did. */
    method Raising() returns (raised: bool)
      modifies `faults
      ensures raised == Raises(old(faults)) && faults == Rest(old(faults))
    {
      raised := faults != [] && faults[0];
      faults := if faults == [] then [] else faults[1..];
    }
  }

  /** One entry of the host's set of tasks: `_keep_alive(spec)` and what it calls. */
  class KeepAlive {
    const cfg: Config
    const spec: Spec
    const loop: EventLoop
    const counters: Counters
    var restarts: nat

    constructor (cfg: Config, spec: Spec, loop: EventLoop)
      ensures this.cfg == cfg && this.spec == spec && this.loop == loop && fresh(counters) && restarts == 0
      ensures counters.passes == 0 && counters.failures == 0 && !counters.abandoned
    {
      this.cfg, this.spec, this.loop, restarts := cfg, spec, loop, 0;
      counters := new Counters();
    }

    /** The worker's observable state, parked at `stage`. */
    ghost function Snapshot(stage: Stage): Task
      reads this, loop, counters
    {
      Task(stage, counters.passes, counters.failures, counters.abandoned, restarts, loop.trail)
    }

    /** What becomes of this worker over the rest of its script, were it to continue as `t`. */
    ghost function Fate(t: Task): Task
      reads loop
    {
      Drive(cfg, spec, t, loop.stopping, loop.script)
    }

    ghost function Entering(idle: int, failure: int): Task
      reads this, loop, counters
    {
      EnterLoop(cfg, spec, Snapshot(Running), loop.stopping, idle, failure, loop.faults)
    }

    /** `None` when the script ends first; `parked` is then where. */
    method RunOnePass(ghost idle: int, ghost failure: int) returns (outcome: Option<Outcome>, ghost parked: Stage)
      requires !loop.stopping
      modifies loop
      ensures |loop.script| < old(|loop.script|) ||
              (|loop.script| == old(|loop.script|) && (outcome.None? || |loop.faults| < old(|loop.faults|)))
      ensures outcome.None? ==>
                loop.script == [] && !parked.Finished? && Snapshot(parked) == old(Fate(Entering(idle, failure)))
      ensures outcome.Some? ==>
                Fate(Settle(cfg, spec, Snapshot(Running), loop.stopping, idle, failure, outcome.value, loop.faults))
                == old(Fate(Entering(idle, failure)))
    {
      ghost var fate := Fate(Entering(idle, failure));
      parked := InFlight(idle, failure);
      var buildFailed := loop.Raising();
      loop.trail := After(loop.trail, Attempted);
      if buildFailed {
        return Some(Outcome(false, true, false)), parked;
      }
      var ending := Unfinished;
      ghost var trail := loop.trail;
      while !Ends(ending) && !loop.stopping
        invariant loop.trail == trail && |loop.script| <= old(|loop.script|)
        invariant !Ends(ending) ==>
                    Fate(Snapshot(if loop.stopping then Draining(idle, failure) else InFlight(idle, failure))) == fate
        invariant Ends(ending) ==> |loop.script| < old(|loop.script|)
        invariant Ends(ending) ==>
                    Fate(Settle(cfg, spec, Snapshot(Running), loop.stopping, idle, failure, OutcomeOf(ending), loop.faults)) == fate
        decreases |loop.script|, !Ends(ending)
      {
        var woken := loop.Await();
        if woken.None? {
          return None, parked;
        }
        ending := woken.value;
      }
      if !Ends(ending) {
        parked := Draining(idle, failure);
        ending := Unfinished;
        while ending.Unfinished?
          invariant loop.trail == trail && |loop.script| <= old(|loop.script|)
          invariant ending.Unfinished? ==> Fate(Snapshot(parked)) == fate
          invariant !ending.Unfinished? ==> |loop.script| < old(|loop.script|)
          invariant !ending.Unfinished? ==>
                      Fate(Settle(cfg, spec, Snapshot(Running), loop.stopping, idle, failure, OutcomeOf(ending), loop.faults)) == fate
          decreases |loop.script|, ending.Unfinished?
        {
          var woken := loop.Await();
          if woken.None? {
            return None, parked;
          }
          ending := woken.value;
        }
        if ending.BudgetExpired? {
          return Some(Outcome(false, false, true)), parked;
        }
      }
      outcome := Some(Outcome(ending.FoundWork?, ending.Raised? || ending.PredicateRaised?, false));
    }

    /** Waits for the delay or for stop. `false` when the script ends first. */
    method Sleep(ghost delay: int, ghost idle: int, ghost failure: int) returns (woke: bool)
      modifies loop
      ensures woke ==> |loop.script| < old(|loop.script|)
      ensures woke ==> Fate(Entering(idle, failure)) == old(Fate(Snapshot(Asleep(delay, idle, failure))))
      ensures !woke ==>
                loop.script == [] &&
                Snapshot(Asleep(delay, idle, failure)) == old(Fate(Snapshot(Asleep(delay, idle, failure))))
    {
      var ending := loop.Await();
      woke := ending.Some?;
    }

    /** The loop body's bookkeeping for a pass abandoned at its budget. */
    method Abandon(outcome: Outcome)
      modifies loop`trail, counters
      ensures Snapshot(Running) == old(Snapshot(Running)).Note(PassEnded(outcome)).(passes := old(counters.passes) + 1, abandoned := true)
    {
      counters.passes := counters.passes + 1;
      loop.trail := After(loop.trail, PassEnded(outcome));
      counters.abandoned := true;
    }

    /** The loop body's bookkeeping for any other outcome, and the delays that follow from it. */
    method Tally(outcome: Outcome, idleDelay: int, failureDelay: int) returns (delay: int, idle: int, failure: int)
      modifies loop`trail, counters
      ensures Snapshot(Running) == Counted(old(Snapshot(Running)), outcome)
      ensures idle == IdleAfter(spec, idleDelay, outcome) && failure == FailureAfter(cfg, spec, failureDelay, outcome)
      ensures delay == if outcome.failed then failureDelay else idle
    {
      idle, failure := idleDelay, failureDelay;
      counters.passes := counters.passes + 1;
      loop.trail := After(loop.trail, PassEnded(outcome));
      if outcome.failed {
        counters.failures := counters.failures + 1;
        delay := failure;
        failure := Grow(failure, cfg.failureCap);
      } else {
        failure := spec.interval;
        idle := if outcome.foundWork then spec.interval else Grow(idle, spec.idleCeiling);
        delay := idle;
      }
    }

    method Supervise() returns (end: End, ghost parked: Task)
      modifies loop, counters
      ensures end.Threw? ==> |loop.script| < old(|loop.script|) ||
                             (|loop.script| == old(|loop.script|) && |loop.faults| < old(|loop.faults|))
      ensures end.Suspended? ==>
                parked == old(Fate(Entering(spec.interval, spec.interval))) && !parked.stage.Finished?
      ensures end.Returned? ==>
                Snapshot(Finished(Drained)) == old(Fate(Entering(spec.interval, spec.interval)))
      ensures end.Threw? ==>
                Fate(Died(cfg, spec, Snapshot(Running), loop.stopping, loop.faults))
                == old(Fate(Entering(spec.interval, spec.interval)))
    {
      hide Drive, Died, Counted, IdleAfter, FailureAfter;
      var idleDelay, failureDelay := spec.interval, spec.interval;
      ghost var fate := Fate(Entering(idleDelay, failureDelay));
      parked := Snapshot(Running);
      while !loop.stopping
        invariant Fate(Entering(idleDelay, failureDelay)) == fate
        invariant |loop.script| <= old(|loop.script|)
        invariant |loop.script| == old(|loop.script|) ==> |loop.faults| <= old(|loop.faults|)
        decreases |loop.script|, |loop.faults|
      {
        var outcome, stage := RunOnePass(idleDelay, failureDelay);
        if outcome.None? {
          parked := Snapshot(stage);
          return Suspended, parked;
        }
        if outcome.value.abandoned {
          Abandon(outcome.value);
          break;
        }
        var delay;
        delay, idleDelay, failureDelay := Tally(outcome.value, idleDelay, failureDelay);
        var touchRaised := loop.Raising();
        if touchRaised {
          return Threw, parked;
        }
        if loop.stopping {
          break;
        }
        var woke := Sleep(delay, idleDelay, failureDelay);
        if !woke {
          parked := Snapshot(Asleep(delay, idleDelay, failureDelay));
          return Suspended, parked;
        }
      }
      FinishedStays(cfg, spec, Snapshot(Finished(Drained)), loop.stopping, loop.script);
      return Returned, parked;
    }

    method ReportNow(escalated: bool) returns (r: WorkerReport)
      ensures r == WorkerReport(spec.name, counters.passes, counters.failures, counters.abandoned, restarts, escalated)
    {
      r := WorkerReport(spec.name, counters.passes, counters.failures, counters.abandoned, restarts, escalated);
    }

    /** `_keep_alive`, from the creation of its task. It reports exactly when the state machine
        finishes on the same script, and reports what the state machine says. */
    method Run() returns (report: Option<WorkerReport>)
      requires restarts == 0 && counters.passes == 0 && counters.failures == 0 && !counters.abandoned
      requires loop.trail == Start && !loop.stopping
      modifies this, loop, counters
      ensures var end := old(Drive(cfg, spec, NEW_TASK, false, loop.script));
              report == if end.stage.Finished? then Some(Report(spec, end)) else None
    {
      ghost var fate := Fate(NEW_TASK);
      var started := loop.Await();
      if started.None? {
        return None;
      }
      while true
        invariant Fate(Entering(spec.interval, spec.interval)) == fate
        decreases |loop.script|, |loop.faults|
      {
        var end, parked := Supervise();
        if end.Suspended? {
          return None;
        }
        if end.Returned? {
          var drained := ReportNow(false);
          return Some(drained);
        }
        ghost var died := Snapshot(Running).Note(SupervisorDied(loop.stopping));
        loop.trail := After(loop.trail, SupervisorDied(loop.stopping));
        if loop.stopping {
          FinishedStays(cfg, spec, died.(stage := Finished(DiedStopping)), loop.stopping, loop.script);
          var stopped := ReportNow(false);
          return Some(stopped);
        }
        if restarts >= cfg.maxRestarts {
          FinishedStays(cfg, spec, died.(stage := Finished(Escalated)), loop.stopping, loop.script);
          var escalated := ReportNow(true);
          return Some(escalated);
        }
        restarts := restarts + 1;
      }
    }
  }

  datatype HostResult = HostResult(workers: seq<WorkerReport>)
  {
    predicate AbandonedAny() {
      exists r :: r in workers && r.abandoned
    }

    predicate EscalatedAny() {
      exists r :: r in workers && r.escalated
    }
  }

  datatype Registration = Accepted(host: WorkerHost) | NoWorkers | DuplicateNames(names: set<string>)

  /** The whole host: a fixed task set, one stop flag, and an event loop that gives turns out in
      whatever order the schedule says. */
  class WorkerHost {
    const specs: seq<Spec>
    const cfg: Config
    var stopping: bool
    var tasks: seq<Task>

    constructor (specs: seq<Spec>, cfg: Config)
      ensures this.specs == specs && this.cfg == cfg && !stopping && tasks == []
    {
      this.specs, this.cfg, stopping, tasks := specs, cfg, false, [];
    }

    static method Register(specs: seq<Spec>, cfg: Config) returns (r: Registration)
      ensures r.NoWorkers? <==> specs == []
      ensures r.DuplicateNames? <==> exists i, j :: 0 <= i < j < |specs| && specs[i].name == specs[j].name
      ensures r.DuplicateNames? ==>
                forall n :: n in r.names <==> exists i, j :: 0 <= i < j < |specs| && specs[i].name == n == specs[j].name
      ensures r.Accepted? ==> fresh(r.host) && r.host.specs == specs && r.host.cfg == cfg && !r.host.stopping
    {
      if specs == [] {
        return NoWorkers;
      }
      var duplicates := set i, j | 0 <= i < j < |specs| && specs[i].name == specs[j].name :: specs[i].name;
      if duplicates != {} {
        return DuplicateNames(duplicates);
      }
      assert forall i, j :: 0 <= i < j < |specs| && specs[i].name == specs[j].name ==> specs[i].name in duplicates;
      var host := new WorkerHost(specs, cfg);
      return Accepted(host);
    }

    method RequestStop()
      modifies `stopping
      ensures stopping
    {
      if !stopping {
        stopping := true;
      }
    }

    /** Reports come back when every task has finished, one per spec in spec order, and each is the
        report `_keep_alive` gives when it is run alone on that worker's own part of the schedule. */
    method Run(schedule: seq<HostEvent>) returns (result: Option<HostResult>)
      modifies this
      ensures stopping == (old(stopping) || Stops(schedule))
      ensures |tasks| == |specs|
      ensures forall i :: 0 <= i < |specs| ==>
                tasks[i] == Drive(cfg, specs[i], NEW_TASK, false, Projection(schedule, i, old(stopping)))
      ensures result.Some? <==> forall i :: 0 <= i < |specs| ==> tasks[i].stage.Finished?
      ensures result.Some? ==>
                && |result.value.workers| == |specs|
                && (forall i :: 0 <= i < |specs| ==> result.value.workers[i] == Report(specs[i], tasks[i]))
                && (result.value.AbandonedAny() <==> exists i :: 0 <= i < |specs| && tasks[i].abandoned)
                && (result.value.EscalatedAny() <==> exists i :: 0 <= i < |specs| && tasks[i].stage.exit.Escalated?)
    {
      tasks := seq(|specs|, i => NEW_TASK);
      ghost var start := Host(stopping, tasks);
      var at := 0;
      assert schedule[0..] == schedule;
      while at < |schedule|
        invariant 0 <= at <= |schedule| && |tasks| == |specs|
        invariant HostRun(cfg, specs, start, schedule)
               == HostRun(cfg, specs, Host(stopping, tasks), schedule[at..])
        invariant stopping == (old(stopping) || StopRequested in schedule[..at])
      {
        match schedule[at] {
          case StopRequested => RequestStop();
          case Turn(i, m) =>
            if i < |specs| {
              tasks := tasks[i := Resume(cfg, specs[i], tasks[i], stopping, m)];
            }
        }
        at := at + 1;
      }
      forall i | 0 <= i < |specs|
        ensures tasks[i] == Drive(cfg, specs[i], NEW_TASK, false, Projection(schedule, i, old(stopping)))
      {
        TaskIsItsOwnDrive(cfg, specs, start, schedule, i, false, old(stopping));
      }
      if exists i :: 0 <= i < |tasks| && !tasks[i].stage.Finished? {
        return None;
      }
      var reports := seq(|specs|, i requires 0 <= i < |tasks| && |tasks| == |specs| && tasks[i].stage.Finished? reads this =>
                                    Report(specs[i], tasks[i]));
      assert forall i :: 0 <= i < |specs| ==> reports[i] == Report(specs[i], tasks[i]) && reports[i] in reports;
      return Some(HostResult(reports));
    }
  }
}
