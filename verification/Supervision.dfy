/** The supervision of one worker, as a state machine whose steps are the stretches of code
    between two awaits of `worker_host.py`. Durations are whole microseconds.

    A worker task is resumed with a `Moment`: what became of the pass in flight (read only when a pass
    is in flight) and which of the calls that may raise (`run_pass()` and the liveness touch)
    raise before the next await, in call order. Calls beyond the end of `faults` do not raise. */
module Supervision {
  import opened Common

  datatype Spec = Spec(name: string, interval: int, idleCeiling: int, drainBudget: int)

  datatype Config = Config(failureCap: int, maxRestarts: int)

  /** How a pass ended, or that it has not, or that its drain budget ran out. */
  datatype Ending = FoundWork | NoWork | Raised | PredicateRaised | Unfinished | BudgetExpired

  datatype Outcome = Outcome(foundWork: bool, failed: bool, abandoned: bool)

  datatype Moment = Moment(ending: Ending, faults: seq<bool>)

  /** What an observer of one worker sees, oldest first. */
  datatype Happening =
    | Attempted                         // `run_pass()` was called
    | PassEnded(outcome: Outcome)       // the outcome reached the supervision loop
    | SupervisorDied(stopping: bool)    // an exception left `_supervise`

  datatype Trail = Start | After(before: Trail, last: Happening)

  datatype Exit = Drained | DiedStopping | Escalated

  /** Where a worker task is parked. The two delays are the locals of `_supervise`. A pass is waited
      for together with stop first (`InFlight`), and from stop on against its budget (`Draining`). */
  datatype Stage =
    | Created
    | Running     // between two awaits
    | InFlight(idle: int, failure: int)
    | Draining(idle: int, failure: int)
    | Asleep(delay: int, idle: int, failure: int)
    | Finished(exit: Exit)

  datatype Task = Task(stage: Stage, passes: nat, failures: nat, abandoned: bool, restarts: nat, trail: Trail)
  {
    function Note(h: Happening): Task {
      this.(trail := After(trail, h))
    }
  }

  datatype WorkerReport = WorkerReport(
    name: string, passes: nat, failures: nat, abandoned: bool, restarts: nat, escalated: bool)

  const NEW_TASK := Task(Created, 0, 0, false, 0, Start)

  function Min(a: int, b: int): int { if a <= b then a else b }

  function Grow(delay: int, ceiling: int): int {
    Min(delay * 2, ceiling)
  }

  /** The pass itself came to an end. */
  predicate Ends(ending: Ending) {
    !ending.Unfinished? && !ending.BudgetExpired?
  }

  function OutcomeOf(ending: Ending): Outcome
    requires !ending.Unfinished?
  {
    match ending
    case FoundWork => Outcome(true, false, false)
    case NoWork => Outcome(false, false, false)
    case Raised | PredicateRaised => Outcome(false, true, false)
    case BudgetExpired => Outcome(false, false, true)
  }

  predicate Raises(faults: seq<bool>) { faults != [] && faults[0] }

  function Rest(faults: seq<bool>): seq<bool> { if faults == [] then [] else faults[1..] }

  /** From the loop test of `_supervise` to the next await: a pass in flight, or a failed build
      whose outcome is settled in the same stretch. */
  function EnterLoop(cfg: Config, spec: Spec, t: Task, stopping: bool, idle: int, failure: int, faults: seq<bool>): Task
    decreases |faults|, 0
  {
    if stopping then
      t.(stage := Finished(Drained))
    else if Raises(faults) then
      Settle(cfg, spec, t.Note(Attempted), stopping, idle, failure, OutcomeOf(Raised), Rest(faults))
    else
      t.Note(Attempted).(stage := InFlight(idle, failure))
  }

  /** A worker once an outcome that was not abandoned is counted. */
  function Counted(t: Task, o: Outcome): Task {
    t.Note(PassEnded(o)).(passes := t.passes + 1, failures := t.failures + if o.failed then 1 else 0)
  }

  function IdleAfter(spec: Spec, idle: int, o: Outcome): int {
    if o.failed then idle else if o.foundWork then spec.interval else Grow(idle, spec.idleCeiling)
  }

  function FailureAfter(cfg: Config, spec: Spec, failure: int, o: Outcome): int {
    if o.failed then Grow(failure, cfg.failureCap) else spec.interval
  }

  /** The part of the loop body that follows a returned outcome. */
  function Settle(cfg: Config, spec: Spec, t: Task, stopping: bool, idle: int, failure: int, outcome: Outcome,
                  faults: seq<bool>): Task
    decreases |faults|, 0
  {
    if outcome.abandoned then
      t.Note(PassEnded(outcome)).(passes := t.passes + 1, abandoned := true, stage := Finished(Drained))
    else
      var counted := Counted(t, outcome);
      var idle', failure' := IdleAfter(spec, idle, outcome), FailureAfter(cfg, spec, failure, outcome);
      if Raises(faults) then
        Died(cfg, spec, counted, stopping, Rest(faults))
      else if stopping then
        counted.(stage := Finished(Drained))
      else
        counted.(stage := Asleep(if outcome.failed then failure else idle', idle', failure'))
  }

  /** `_keep_alive` after an exception left `_supervise`. */
  function Died(cfg: Config, spec: Spec, t: Task, stopping: bool, faults: seq<bool>): Task
    decreases |faults|, 1
  {
    var noted := t.Note(SupervisorDied(stopping));
    if stopping then
      noted.(stage := Finished(DiedStopping))
    else if t.restarts >= cfg.maxRestarts then
      noted.(stage := Finished(Escalated))
    else
      EnterLoop(cfg, spec, noted.(restarts := t.restarts + 1), stopping, spec.interval, spec.interval, faults)
  }

  /** One turn of the event loop given to this task. The budget starts with the turn at which the task
      sees stop with its pass unfinished, and nothing can run out before. */
  function Resume(cfg: Config, spec: Spec, t: Task, stopping: bool, m: Moment): Task {
    var running := t.(stage := Running);
    match t.stage
    case Created => EnterLoop(cfg, spec, running, stopping, spec.interval, spec.interval, m.faults)
    case InFlight(idle, failure) =>
      if Ends(m.ending) then Settle(cfg, spec, running, stopping, idle, failure, OutcomeOf(m.ending), m.faults)
      else if stopping then t.(stage := Draining(idle, failure))
      else t
    case Draining(idle, failure) =>
      if m.ending.Unfinished? then t
      else Settle(cfg, spec, running, stopping, idle, failure, OutcomeOf(m.ending), m.faults)
    case Asleep(_, idle, failure) => EnterLoop(cfg, spec, running, stopping, idle, failure, m.faults)
    case Running | Finished(_) => t
  }

  /** What a worker meets at one resumption: whether stop arrived meanwhile, and the moment. */
  datatype Encounter = Encounter(stopArrived: bool, moment: Moment)

  function Drive(cfg: Config, spec: Spec, t: Task, stopping: bool, script: seq<Encounter>): Task
    decreases |script|
  {
    if script == [] then t
    else
      var now := stopping || script[0].stopArrived;
      Drive(cfg, spec, Resume(cfg, spec, t, now, script[0].moment), now, script[1..])
  }

  function Report(spec: Spec, t: Task): WorkerReport
    requires t.stage.Finished?
  {
    WorkerReport(spec.name, t.passes, t.failures, t.abandoned, t.restarts, t.stage.exit.Escalated?)
  }

  // ---- Reading a trail ---------------------------------------------------------------------

  function Attempts(l: Trail): nat {
    match l
    case Start => 0
    case After(b, h) => Attempts(b) + if h.Attempted? then 1 else 0
  }

  function Ended(l: Trail): nat {
    match l
    case Start => 0
    case After(b, h) => Ended(b) + if h.PassEnded? then 1 else 0
  }

  function FailuresIn(l: Trail): nat {
    match l
    case Start => 0
    case After(b, h) => FailuresIn(b) + if h.PassEnded? && h.outcome.failed then 1 else 0
  }

  function AbandonedIn(l: Trail): nat {
    match l
    case Start => 0
    case After(b, h) => AbandonedIn(b) + if h.PassEnded? && h.outcome.abandoned then 1 else 0
  }

  function Deaths(l: Trail): nat {
    match l
    case Start => 0
    case After(b, h) => Deaths(b) + if h.SupervisorDied? then 1 else 0
  }

  function DeathsWhileStopping(l: Trail): nat {
    match l
    case Start => 0
    case After(b, h) => DeathsWhileStopping(b) + if h.SupervisorDied? && h.stopping then 1 else 0
  }

  /** Passes without work since the last pass that found some, failures skipped, counted within
      the current supervision. */
  function IdleRun(l: Trail): nat {
    match l
    case Start => 0
    case After(b, Attempted) => IdleRun(b)
    case After(b, SupervisorDied(_)) => 0
    case After(b, PassEnded(o)) => if o.failed then IdleRun(b) else if o.foundWork then 0 else IdleRun(b) + 1
  }

  /** Failed passes since the last pass that did not fail, within the current supervision. */
  function FailRun(l: Trail): nat {
    match l
    case Start => 0
    case After(b, Attempted) => FailRun(b)
    case After(b, SupervisorDied(_)) => 0
    case After(b, PassEnded(o)) => if o.failed then FailRun(b) + 1 else 0
  }

  /** `interval` doubled `k` times and then capped; the first value is not capped. A negative ceiling is
      doubled along with what it capped. */
  function Capped(interval: int, k: nat, ceiling: int): int {
    if k == 0 then interval
    else Min(interval * Pow2(k), if ceiling >= 0 then ceiling else ceiling * Pow2(k - 1))
  }

  /** The wait after the latest outcome, read off the history alone. */
  function WaitAfter(cfg: Config, spec: Spec, o: Outcome, l: Trail): int {
    if o.failed then Capped(spec.interval, if FailRun(l) == 0 then 0 else FailRun(l) - 1, cfg.failureCap)
    else if o.foundWork then spec.interval
    else Capped(spec.interval, IdleRun(l), spec.idleCeiling)
  }

  // ---- Tallies, lifecycle and backoff over every history -------------------------------------

  /** The counters are a function of the history, and no supervision died under a set stop flag. */
  ghost predicate Tallied(cfg: Config, t: Task) {
    && t.passes == Ended(t.trail)
    && t.failures == FailuresIn(t.trail)
    && (if t.abandoned then AbandonedIn(t.trail) == 1 else AbandonedIn(t.trail) == 0)
    && t.failures + AbandonedIn(t.trail) <= t.passes
    && (t.restarts <= cfg.maxRestarts || t.restarts == 0)
  }

  ghost predicate Unhurt(cfg: Config, t: Task) {
    && Tallied(cfg, t)
    && !t.abandoned
    && Deaths(t.trail) == t.restarts
    && DeathsWhileStopping(t.trail) == 0
  }

  ghost predicate Delays(cfg: Config, spec: Spec, t: Task, idle: int, failure: int) {
    && idle == Capped(spec.interval, IdleRun(t.trail), spec.idleCeiling)
    && failure == Capped(spec.interval, FailRun(t.trail), cfg.failureCap)
  }

  ghost predicate BetweenPasses(l: Trail) {
    l.After? ==> l.last.PassEnded?
  }

  ghost predicate PassGoesOn(cfg: Config, spec: Spec, t: Task, idle: int, failure: int) {
    && Unhurt(cfg, t) && Delays(cfg, spec, t, idle, failure)
    && t.trail.After? && t.trail.last == Attempted && Attempts(t.trail) == Ended(t.trail) + 1
  }

  /** What holds of every task at an await, and of every finished task. */
  ghost predicate Sound(cfg: Config, spec: Spec, t: Task) {
    && Tallied(cfg, t)
    && match t.stage
       case Created => t == NEW_TASK
       case Running => false
       case InFlight(idle, failure) => PassGoesOn(cfg, spec, t, idle, failure)
       case Draining(idle, failure) => PassGoesOn(cfg, spec, t, idle, failure)
       case Asleep(delay, idle, failure) =>
         Unhurt(cfg, t) && Delays(cfg, spec, t, idle, failure) && Attempts(t.trail) == Ended(t.trail) &&
         t.trail.After? && t.trail.last.PassEnded? && !t.trail.last.outcome.abandoned &&
         delay == WaitAfter(cfg, spec, t.trail.last.outcome, t.trail)
       case Finished(exit) =>
         Attempts(t.trail) == Ended(t.trail) &&
         match exit
         case Drained =>
           Deaths(t.trail) == t.restarts && DeathsWhileStopping(t.trail) == 0 && BetweenPasses(t.trail) &&
           (t.abandoned ==> t.trail.After? && t.trail.last.outcome.abandoned)
         case DiedStopping =>
           !t.abandoned && Deaths(t.trail) == t.restarts + 1 && t.trail.last == SupervisorDied(true) &&
           DeathsWhileStopping(t.trail) == 1
         case Escalated =>
           !t.abandoned && Deaths(t.trail) == t.restarts + 1 && t.trail.last == SupervisorDied(false) &&
           t.restarts >= cfg.maxRestarts && DeathsWhileStopping(t.trail) == 0
  }

  lemma GrowCapped(interval: int, k: nat, ceiling: int)
    ensures Grow(Capped(interval, k, ceiling), ceiling) == Capped(interval, k + 1, ceiling)
  {
    assert interval * Pow2(k + 1) == 2 * (interval * Pow2(k));
    if ceiling < 0 && k > 0 {
      Pow2Positive(k);
      assert ceiling * Pow2(k) == 2 * (ceiling * Pow2(k - 1));
      assert ceiling * Pow2(k) <= ceiling;
    }
  }

  lemma {:induction false} EnterLoopSound(cfg: Config, spec: Spec, t: Task, stopping: bool, idle: int, failure: int, faults: seq<bool>)
    requires Unhurt(cfg, t) && Delays(cfg, spec, t, idle, failure) && Attempts(t.trail) == Ended(t.trail)
    requires stopping ==> BetweenPasses(t.trail)
    ensures Sound(cfg, spec, EnterLoop(cfg, spec, t, stopping, idle, failure, faults))
    decreases |faults|, 0
  {
    if !stopping && Raises(faults) {
      SettleSound(cfg, spec, t.Note(Attempted), stopping, idle, failure, OutcomeOf(Raised), Rest(faults));
    }
  }

  lemma CountedUnhurt(cfg: Config, t: Task, o: Outcome)
    requires Unhurt(cfg, t) && Attempts(t.trail) == Ended(t.trail) + 1 && !o.abandoned
    ensures Unhurt(cfg, Counted(t, o)) && Attempts(Counted(t, o).trail) == Ended(Counted(t, o).trail)
  {
  }

  lemma CountedDelays(cfg: Config, spec: Spec, t: Task, idle: int, failure: int, o: Outcome)
    requires Delays(cfg, spec, t, idle, failure)
    ensures Delays(cfg, spec, Counted(t, o), IdleAfter(spec, idle, o), FailureAfter(cfg, spec, failure, o))
    ensures WaitAfter(cfg, spec, o, Counted(t, o).trail) == if o.failed then failure else IdleAfter(spec, idle, o)
  {
    GrowCapped(spec.interval, IdleRun(t.trail), spec.idleCeiling);
    GrowCapped(spec.interval, FailRun(t.trail), cfg.failureCap);
    assert Capped(spec.interval, 0, spec.idleCeiling) == spec.interval == Capped(spec.interval, 0, cfg.failureCap);
    hide Capped, Grow;
  }

  lemma {:induction false} AbandonedSound(cfg: Config, spec: Spec, t: Task, stopping: bool, idle: int, failure: int, o: Outcome,
                       faults: seq<bool>)
    requires Unhurt(cfg, t) && Attempts(t.trail) == Ended(t.trail) + 1 && o.abandoned && !o.failed
    ensures Sound(cfg, spec, Settle(cfg, spec, t, stopping, idle, failure, o, faults))
  {
  }

  lemma {:induction false} SettleSound(cfg: Config, spec: Spec, t: Task, stopping: bool, idle: int, failure: int, o: Outcome,
                    faults: seq<bool>)
    requires Unhurt(cfg, t) && Delays(cfg, spec, t, idle, failure) && Attempts(t.trail) == Ended(t.trail) + 1
    requires !(o.failed && o.abandoned)
    ensures Sound(cfg, spec, Settle(cfg, spec, t, stopping, idle, failure, o, faults))
    decreases |faults|, 0
  {
    if o.abandoned {
      AbandonedSound(cfg, spec, t, stopping, idle, failure, o, faults);
    } else {
      CountedUnhurt(cfg, t, o);
      CountedDelays(cfg, spec, t, idle, failure, o);
      hide Delays, WaitAfter, Attempts, Ended, FailuresIn, AbandonedIn, Grow, IdleAfter, FailureAfter;
      if Raises(faults) {
        DiedSound(cfg, spec, Counted(t, o), stopping, Rest(faults));
      }
    }
  }

  lemma {:induction false} DiedSound(cfg: Config, spec: Spec, t: Task, stopping: bool, faults: seq<bool>)
    requires Unhurt(cfg, t) && Attempts(t.trail) == Ended(t.trail)
    ensures Sound(cfg, spec, Died(cfg, spec, t, stopping, faults))
    decreases |faults|, 1
  {
    if !stopping && t.restarts < cfg.maxRestarts {
      var again := t.Note(SupervisorDied(false)).(restarts := t.restarts + 1);
      EnterLoopSound(cfg, spec, again, stopping, spec.interval, spec.interval, faults);
    }
  }

  /** Every reachable task is sound: tallies equal the history over all incarnations, restarts
      count the deaths that were repaired, and every wait has its closed form. */
  lemma {:induction false} AlwaysSound(cfg: Config, spec: Spec, t: Task, stopping: bool, script: seq<Encounter>)
    requires Sound(cfg, spec, t)
    ensures Sound(cfg, spec, Drive(cfg, spec, t, stopping, script))
    decreases |script|
  {
    if script != [] {
      var now := stopping || script[0].stopArrived;
      var m := script[0].moment;
      var running := t.(stage := Running);
      match t.stage {
        case Created => EnterLoopSound(cfg, spec, running, now, spec.interval, spec.interval, m.faults);
        case InFlight(idle, failure) =>
          if Ends(m.ending) {
            SettleSound(cfg, spec, running, now, idle, failure, OutcomeOf(m.ending), m.faults);
          }
        case Draining(idle, failure) =>
          if !m.ending.Unfinished? {
            SettleSound(cfg, spec, running, now, idle, failure, OutcomeOf(m.ending), m.faults);
          }
        case Asleep(_, idle, failure) => EnterLoopSound(cfg, spec, running, now, idle, failure, m.faults);
        case Running | Finished(_) =>
      }
      AlwaysSound(cfg, spec, Resume(cfg, spec, t, now, m), now, script[1..]);
    }
  }

  /** A death is repaired while restarts last and stop is unset, and is otherwise the end: the
      report says escalated exactly when the last thing seen was a death without stop. */
  lemma {:induction false} Lifecycle(cfg: Config, spec: Spec, script: seq<Encounter>)
    ensures var t := Drive(cfg, spec, NEW_TASK, false, script);
            && t.restarts <= (if cfg.maxRestarts < 0 then 0 else cfg.maxRestarts)
            && t.passes == Ended(t.trail) && t.failures == FailuresIn(t.trail)
            && t.failures + (if t.abandoned then 1 else 0) <= t.passes
            && Deaths(t.trail) == t.restarts + (if t.stage.Finished? && t.stage.exit != Drained then 1 else 0)
            && (t.stage == Finished(Escalated) <==> t.trail.After? && t.trail.last == SupervisorDied(false))
            && (t.stage == Finished(DiedStopping) <==> DeathsWhileStopping(t.trail) == 1)
            && (t.stage == Finished(Escalated) ==> t.restarts >= cfg.maxRestarts)
  {
    AlwaysSound(cfg, spec, NEW_TASK, false, script);
  }

  /** The wait a worker is parked on is the closed form of its history: `interval * 2^k` capped,
      where k counts idle passes (failures skipped) or consecutive failures minus one. */
  lemma {:induction false} Backoff(cfg: Config, spec: Spec, script: seq<Encounter>)
    ensures var t := Drive(cfg, spec, NEW_TASK, false, script);
            t.stage.Asleep? ==>
              && t.trail.After? && t.trail.last.PassEnded?
              && t.stage.delay == WaitAfter(cfg, spec, t.trail.last.outcome, t.trail)
  {
    AlwaysSound(cfg, spec, NEW_TASK, false, script);
  }

  lemma {:induction false} FinishedStays(cfg: Config, spec: Spec, t: Task, stopping: bool, script: seq<Encounter>)
    requires t.stage.Finished?
    ensures Drive(cfg, spec, t, stopping, script) == t
    decreases |script|
  {
    if script != [] {
      FinishedStays(cfg, spec, t, stopping || script[0].stopArrived, script[1..]);
    }
  }

  lemma {:induction false} SettleStopping(cfg: Config, spec: Spec, t: Task, idle: int, failure: int, o: Outcome, faults: seq<bool>)
    ensures var u := Settle(cfg, spec, t, true, idle, failure, o, faults);
            && u.stage.Finished? && u.passes == t.passes + 1 && u.restarts == t.restarts
            && Attempts(u.trail) == Attempts(t.trail)
            && (u.abandoned <==> t.abandoned || o.abandoned)
  {
    var dead := Died(cfg, spec, Counted(t, o), true, Rest(faults));
    assert dead == Counted(t, o).Note(SupervisorDied(true)).(stage := Finished(DiedStopping));
    assert !o.abandoned && Raises(faults) ==> Settle(cfg, spec, t, true, idle, failure, o, faults) == dead;
  }

  function Moments(script: seq<Encounter>): seq<Moment> {
    seq(|script|, i requires 0 <= i < |script| => script[i].moment)
  }

  /** Once stop is set: the turn at which the pass in flight ends, or is given up at its budget. */
  function EndingTurn(draining: bool, turns: seq<Moment>): Option<Moment>
    decreases |turns|
  {
    if turns == [] then None
    else if Ends(turns[0].ending) || (draining && turns[0].ending.BudgetExpired?) then Some(turns[0])
    else EndingTurn(true, turns[1..])
  }

  /** It is the first turn if the pass has ended by then, and otherwise the first later turn by which it
      has, or by which its budget ran out. */
  lemma {:induction false} EndingTurnIff(draining: bool, turns: seq<Moment>)
    ensures EndingTurn(draining, turns).Some? <==>
              (turns != [] && Ends(turns[0].ending))
              || exists j :: (if draining then 0 else 1) <= j < |turns| && !turns[j].ending.Unfinished?
    decreases |turns|
  {
    if turns != [] {
      var rest := turns[1..];
      EndingTurnIff(true, rest);
      assert forall j :: 0 <= j < |rest| ==> rest[j] == turns[j + 1];
      assert forall j :: 1 <= j < |turns| ==> turns[j] == rest[j - 1];
    }
  }

  predicate Busy(t: Task) {
    t.stage.InFlight? || t.stage.Draining?
  }

  /** What stop makes of a task: no further attempt or restart; a pass in flight is counted when it ends,
      and abandoned exactly when its budget ran out first; a task without one is finished by its next
      turn. */
  ghost predicate Drains(t: Task, u: Task, turns: seq<Moment>) {
    && Attempts(u.trail) == Attempts(t.trail) && u.restarts == t.restarts
    && (Busy(t) ==>
          var e := EndingTurn(t.stage.Draining?, turns);
          && (u.stage.Finished? <==> e.Some?) && u.passes == t.passes + (if e.Some? then 1 else 0)
          && (u.abandoned <==> t.abandoned || (e.Some? && e.value.ending.BudgetExpired?)))
    && (!Busy(t) ==>
          && (u.stage.Finished? <==> t.stage.Finished? || turns != [])
          && u.passes == t.passes && u.abandoned == t.abandoned)
  }

  /** Once stop is set, over every script. */
  lemma {:induction false} AfterStop(cfg: Config, spec: Spec, t: Task, script: seq<Encounter>)
    requires !t.stage.Running?
    ensures Drains(t, Drive(cfg, spec, t, true, script), Moments(script))
    decreases |script|
  {
    if script != [] {
      var m := script[0].moment;
      assert Moments(script)[0] == m && Moments(script)[1..] == Moments(script[1..]);
      var u := Resume(cfg, spec, t, true, m);
      if Busy(t) {
        if m.ending.Unfinished? || (t.stage.InFlight? && m.ending.BudgetExpired?) {
          AfterStop(cfg, spec, u, script[1..]);
        } else {
          SettleStopping(cfg, spec, t.(stage := Running), t.stage.idle, t.stage.failure, OutcomeOf(m.ending), m.faults);
          FinishedStays(cfg, spec, u, true, script[1..]);
        }
      } else {
        FinishedStays(cfg, spec, u, true, script[1..]);
      }
    }
  }

  ghost predicate NoStop(script: seq<Encounter>) {
    forall k :: 0 <= k < |script| ==> !script[k].stopArrived
  }

  predicate Undisturbed(t: Task) {
    !t.stage.Running? && !t.stage.Draining? && (t.stage.Finished? ==> t.stage.exit.Escalated?)
  }

  /** Without stop a task only ever finishes by escalation, and abandons nothing. */
  lemma {:induction false} BeforeStop(cfg: Config, spec: Spec, t: Task, script: seq<Encounter>)
    requires NoStop(script)
    requires Undisturbed(t)
    ensures var u := Drive(cfg, spec, t, false, script); Undisturbed(u) && u.abandoned == t.abandoned
    decreases |script|
  {
    if script != [] {
      var m := script[0].moment;
      var running := t.(stage := Running);
      match t.stage {
        case Created => EnterLoopBeforeStop(cfg, spec, running, spec.interval, spec.interval, m.faults);
        case InFlight(idle, failure) =>
          if Ends(m.ending) {
            SettleBeforeStop(cfg, spec, running, idle, failure, OutcomeOf(m.ending), m.faults);
          }
        case Asleep(_, idle, failure) => EnterLoopBeforeStop(cfg, spec, running, idle, failure, m.faults);
        case Finished(_) =>
      }
      BeforeStop(cfg, spec, Resume(cfg, spec, t, false, m), script[1..]);
    }
  }

  lemma {:induction false} EnterLoopBeforeStop(cfg: Config, spec: Spec, t: Task, idle: int, failure: int, faults: seq<bool>)
    ensures var u := EnterLoop(cfg, spec, t, false, idle, failure, faults);
            Undisturbed(u) && u.abandoned == t.abandoned
    decreases |faults|, 0
  {
    if Raises(faults) {
      SettleBeforeStop(cfg, spec, t.Note(Attempted), idle, failure, OutcomeOf(Raised), Rest(faults));
    }
  }

  lemma {:induction false} SettleBeforeStop(cfg: Config, spec: Spec, t: Task, idle: int, failure: int, o: Outcome, faults: seq<bool>)
    requires !o.abandoned
    ensures var u := Settle(cfg, spec, t, false, idle, failure, o, faults);
            Undisturbed(u) && u.abandoned == t.abandoned
    decreases |faults|, 0
  {
    if Raises(faults) {
      if t.restarts < cfg.maxRestarts {
        var again := Counted(t, o).Note(SupervisorDied(false)).(restarts := t.restarts + 1);
        EnterLoopBeforeStop(cfg, spec, again, spec.interval, spec.interval, Rest(faults));
      }
    }
  }
}
