/** What every turn of the event loop adds to a worker's history, and whole histories read off the
    script alone. */
module PassHistory {
  import opened Supervision

  /** A history as a list, oldest first. */
  function Events(l: Trail): seq<Happening> {
    match l
    case Start => []
    case After(b, h) => Events(b) + [h]
  }

  // ---- One turn --------------------------------------------------------------------------------------------

  /** A call that may raise: building a pass, and the liveness touch after an outcome that was not
      abandoned. */
  predicate IsCall(h: Happening) {
    h == Attempted || (h.PassEnded? && !h.outcome.abandoned)
  }

  /** Which calls of a stretch raised: a stretch ends at a call that did not. */
  function CallsShown(h: seq<Happening>): seq<bool> {
    if h == [] then [] else (if IsCall(h[0]) then [|h| > 1] else []) + CallsShown(h[1..])
  }

  /** The calls that raised are those the script says. */
  predicate Obeys(shown: seq<bool>, faults: seq<bool>) {
    forall i :: 0 <= i < |shown| ==> shown[i] == (i < |faults| && faults[i])
  }

  /** What a call or a death is followed by within one stretch: a pass that could not be built has failed,
      a touch that raised is a death, and a death that is repaired is followed by the next attempt. */
  predicate Follows(a: Happening, b: Happening, stopping: bool) {
    match a
    case Attempted => b == PassEnded(Outcome(false, true, false))
    case PassEnded(o) => !o.abandoned && b == SupervisorDied(stopping)
    case SupervisorDied(_) => !stopping && b == Attempted
  }

  predicate Chained(h: seq<Happening>, stopping: bool) {
    forall i :: 0 <= i < |h| - 1 ==> Follows(h[i], h[i + 1], stopping)
  }

  /** The verdict on a pass, from how it ended. */
  predicate Says(ending: Ending, o: Outcome) {
    && (o.foundWork <==> ending == FoundWork)
    && (o.failed <==> ending == Raised || ending == PredicateRaised)
    && (o.abandoned <==> ending == BudgetExpired)
  }

  predicate StillWaiting(t: Task, m: Moment) {
    m.ending == Unfinished || (t.stage.InFlight? && m.ending == BudgetExpired)
  }

  /** What a stretch starts with: a worker that waits for nothing but its delay attempts a pass, unless
      stop is set; one with a pass in flight sees it end. */
  predicate Opens(t: Task, stopping: bool, m: Moment, h: seq<Happening>) {
    match t.stage
    case Created | Asleep(_, _, _) => if stopping then h == [] else h != [] && h[0] == Attempted
    case InFlight(_, _) | Draining(_, _) =>
      if StillWaiting(t, m) then h == [] else h != [] && h[0].PassEnded? && Says(m.ending, h[0].outcome)
    case Running | Finished(_) => h == []
  }

  /** Where it leaves the worker. */
  predicate Leaves(t: Task, stopping: bool, h: seq<Happening>, u: Task) {
    if h == [] then
      match t.stage
      case Created | Asleep(_, _, _) => u == t.(stage := Finished(Drained))
      case InFlight(idle, failure) => u == if stopping then t.(stage := Draining(idle, failure)) else t
      case _ => u == t
    else LeftAfter(h[|h| - 1], stopping, u)
  }

  predicate LeftAfter(last: Happening, stopping: bool, u: Task) {
    match last
    case Attempted => u.stage.InFlight?
    case PassEnded(o) => if o.abandoned || stopping then u.stage == Finished(Drained) else u.stage.Asleep?
    case SupervisorDied(_) => u.stage == Finished(if stopping then DiedStopping else Escalated)
  }

  ghost predicate Turns(t: Task, stopping: bool, m: Moment, h: seq<Happening>, u: Task) {
    && Events(u.trail) == Events(t.trail) + h
    && Opens(t, stopping, m, h) && Chained(h, stopping) && Leaves(t, stopping, h, u)
    && Obeys(CallsShown(h), m.faults)
  }

  /** A stretch from a first happening on. */
  ghost predicate Stretch(base: Trail, first: Happening, stopping: bool, faults: seq<bool>, h: seq<Happening>, u: Task) {
    && h != [] && h[0] == first && Events(u.trail) == Events(base) + h
    && Chained(h, stopping) && LeftAfter(h[|h| - 1], stopping, u) && Obeys(CallsShown(h), faults)
  }

  lemma ChainedBefore(first: Happening, h: seq<Happening>, stopping: bool)
    requires h != [] && Follows(first, h[0], stopping) && Chained(h, stopping)
    ensures Chained([first] + h, stopping)
  {
    hide Follows;
    var all := [first] + h;
    forall i | 0 <= i < |all| - 1 ensures Follows(all[i], all[i + 1], stopping) {
      if i > 0 {
        assert all[i] == h[i - 1] && all[i + 1] == h[i - 1 + 1];
      }
    }
  }

  lemma CallsBefore(first: Happening, h: seq<Happening>, faults: seq<bool>)
    requires h != [] && (IsCall(first) ==> Raises(faults))
    requires Obeys(CallsShown(h), if IsCall(first) then Rest(faults) else faults)
    ensures Obeys(CallsShown([first] + h), faults)
  {
    assert ([first] + h)[1..] == h;
  }

  lemma Appended(base: seq<Happening>, first: Happening, h: seq<Happening>)
    ensures base + [first] + h == base + ([first] + h)
  {
  }

  lemma StretchBefore(base: Trail, first: Happening, second: Happening, stopping: bool, faults: seq<bool>, h: seq<Happening>, u: Task)
    requires IsCall(first) ==> Raises(faults)
    requires Follows(first, second, stopping)
    requires Stretch(After(base, first), second, stopping, if IsCall(first) then Rest(faults) else faults, h, u)
    ensures Stretch(base, first, stopping, faults, [first] + h, u)
  {
    ChainedBefore(first, h, stopping);
    CallsBefore(first, h, faults);
    hide Follows, Chained, Obeys, CallsShown, IsCall, LeftAfter;
    Appended(Events(base), first, h);
  }

  lemma StretchAlone(base: Trail, last: Happening, stopping: bool, faults: seq<bool>, u: Task)
    requires IsCall(last) ==> !Raises(faults)
    requires Events(u.trail) == Events(base) + [last] && LeftAfter(last, stopping, u)
    ensures Stretch(base, last, stopping, faults, [last], u)
  {
    assert [last][1..] == [];
  }

  lemma {:induction false} EnterLoopAdds(cfg: Config, spec: Spec, t: Task, idle: int, failure: int, faults: seq<bool>)
    returns (h: seq<Happening>)
    ensures Stretch(t.trail, Attempted, false, faults, h, EnterLoop(cfg, spec, t, false, idle, failure, faults))
    decreases |faults|, 0
  {
    var u := EnterLoop(cfg, spec, t, false, idle, failure, faults);
    if Raises(faults) {
      var failed := OutcomeOf(Raised);
      var rest := SettleAdds(cfg, spec, t.Note(Attempted), false, idle, failure, failed, Rest(faults));
      StretchBefore(t.trail, Attempted, PassEnded(failed), false, faults, rest, u);
      h := [Attempted] + rest;
    } else {
      StretchAlone(t.trail, Attempted, false, faults, u);
      h := [Attempted];
    }
  }

  lemma {:induction false} SettleAdds(cfg: Config, spec: Spec, t: Task, stopping: bool, idle: int, failure: int, o: Outcome,
                                      faults: seq<bool>) returns (h: seq<Happening>)
    ensures Stretch(t.trail, PassEnded(o), stopping, faults, h, Settle(cfg, spec, t, stopping, idle, failure, o, faults))
    decreases |faults|, 0
  {
    var u := Settle(cfg, spec, t, stopping, idle, failure, o, faults);
    if !o.abandoned && Raises(faults) {
      var rest := DiedAdds(cfg, spec, Counted(t, o), stopping, Rest(faults));
      StretchBefore(t.trail, PassEnded(o), SupervisorDied(stopping), stopping, faults, rest, u);
      h := [PassEnded(o)] + rest;
    } else {
      StretchAlone(t.trail, PassEnded(o), stopping, faults, u);
      h := [PassEnded(o)];
    }
  }

  lemma {:induction false} DiedAdds(cfg: Config, spec: Spec, t: Task, stopping: bool, faults: seq<bool>) returns (h: seq<Happening>)
    ensures Stretch(t.trail, SupervisorDied(stopping), stopping, faults, h, Died(cfg, spec, t, stopping, faults))
    decreases |faults|, 1
  {
    var u := Died(cfg, spec, t, stopping, faults);
    if stopping || t.restarts >= cfg.maxRestarts {
      StretchAlone(t.trail, SupervisorDied(stopping), stopping, faults, u);
      h := [SupervisorDied(stopping)];
    } else {
      var again := t.Note(SupervisorDied(false)).(restarts := t.restarts + 1);
      var rest := EnterLoopAdds(cfg, spec, again, spec.interval, spec.interval, faults);
      StretchBefore(t.trail, SupervisorDied(false), Attempted, false, faults, rest, u);
      h := [SupervisorDied(false)] + rest;
    }
  }

  lemma NothingAdded(t: Task, stopping: bool, m: Moment, u: Task)
    requires u.trail == t.trail && Opens(t, stopping, m, []) && Leaves(t, stopping, [], u)
    ensures Turns(t, stopping, m, [], u)
  {
    assert Events(t.trail) + [] == Events(t.trail);
  }

  lemma {:induction false} TurnAdds(cfg: Config, spec: Spec, t: Task, stopping: bool, m: Moment) returns (h: seq<Happening>)
    ensures Turns(t, stopping, m, h, Resume(cfg, spec, t, stopping, m))
  {
    var u := Resume(cfg, spec, t, stopping, m);
    var running := t.(stage := Running);
    h := [];
    match t.stage {
      case Created =>
        if !stopping {
          h := EnterLoopAdds(cfg, spec, running, spec.interval, spec.interval, m.faults);
        }
      case Asleep(_, idle, failure) =>
        if !stopping {
          h := EnterLoopAdds(cfg, spec, running, idle, failure, m.faults);
        }
      case InFlight(idle, failure) =>
        if Ends(m.ending) {
          h := SettleAdds(cfg, spec, running, stopping, idle, failure, OutcomeOf(m.ending), m.faults);
        }
      case Draining(idle, failure) =>
        if !m.ending.Unfinished? {
          h := SettleAdds(cfg, spec, running, stopping, idle, failure, OutcomeOf(m.ending), m.faults);
        }
      case Running | Finished(_) =>
    }
    if h == [] {
      NothingAdded(t, stopping, m, u);
    }
  }

  // ---- Every turn of every script --------------------------------------------------------------------------

  predicate StopSeen(script: seq<Encounter>) {
    exists k :: 0 <= k < |script| && script[k].stopArrived
  }

  lemma {:induction false} DriveLast(cfg: Config, spec: Spec, t: Task, stopping: bool, script: seq<Encounter>)
    requires script != []
    ensures Drive(cfg, spec, t, stopping, script) ==
            Resume(cfg, spec, Drive(cfg, spec, t, stopping, script[..|script| - 1]), stopping || StopSeen(script),
                   script[|script| - 1].moment)
    decreases |script|
  {
    var n := |script| - 1;
    var now := stopping || script[0].stopArrived;
    assert (now || StopSeen(script[1..])) == (stopping || StopSeen(script)) by {
      assert forall k :: 0 < k < |script| ==> script[k] == script[1..][k - 1];
    }
    if n > 0 {
      var u := Resume(cfg, spec, t, now, script[0].moment);
      DriveLast(cfg, spec, u, now, script[1..]);
      assert script[..n][1..] == script[1..][..n - 1] && script[..n][0] == script[0];
    } else {
      assert script[..n] == [] && script[1..] == [];
    }
  }

  /** A worker's state after so many turns. */
  function At(cfg: Config, spec: Spec, script: seq<Encounter>, n: nat): Task
    requires n <= |script|
  {
    Drive(cfg, spec, NEW_TASK, false, script[..n])
  }

  /** At every turn of every script: what the worker's history gains starts as its stage, the stop flag and
      the pass's end say, goes on call by call exactly where the script makes a call raise, and leaves the
      worker in the stage its last happening says. */
  lemma {:induction false} EveryTurn(cfg: Config, spec: Spec, script: seq<Encounter>, n: nat) returns (h: seq<Happening>)
    requires n < |script|
    ensures Turns(At(cfg, spec, script, n), StopSeen(script[..n + 1]), script[n].moment, h, At(cfg, spec, script, n + 1))
  {
    assert script[..n + 1][..n] == script[..n];
    DriveLast(cfg, spec, NEW_TASK, false, script[..n + 1]);
    h := TurnAdds(cfg, spec, At(cfg, spec, script, n), StopSeen(script[..n + 1]), script[n].moment);
  }

  // ---- Polling ---------------------------------------------------------------------------------------------

  function AttemptsIn(h: seq<Happening>): nat {
    if h == [] then 0 else AttemptsIn(h[..|h| - 1]) + if h[|h| - 1] == Attempted then 1 else 0
  }

  lemma {:induction false} AttemptsListed(l: Trail)
    ensures Attempts(l) == AttemptsIn(Events(l))
  {
    if l.After? {
      AttemptsListed(l.before);
      assert Events(l)[..|Events(l)| - 1] == Events(l.before);
    }
  }

  lemma {:induction false} AttemptsAppend(a: seq<Happening>, b: seq<Happening>)
    ensures AttemptsIn(a + b) == AttemptsIn(a) + AttemptsIn(b)
  {
    if b == [] {
      assert a + b == a;
    } else {
      AttemptsAppend(a, b[..|b| - 1]);
      assert (a + b)[..|a + b| - 1] == a + b[..|b| - 1];
    }
  }

  lemma {:induction false} FirstCounts(h: seq<Happening>)
    requires h != [] && h[0] == Attempted
    ensures AttemptsIn(h) >= 1
  {
    AttemptsAppend([Attempted], h[1..]);
    assert [Attempted] + h[1..] == h && [Attempted][..0] == [];
  }

  predicate Waits(t: Task) {
    t.stage.Created? || t.stage.Asleep?
  }

  /** Without stop a turn given to a worker that is new or asleep starts a pass, whatever raises. Every
      other worker has a pass in flight or has escalated. */
  lemma {:induction false} WakingTurnAttempts(cfg: Config, spec: Spec, script: seq<Encounter>, n: nat)
    requires NoStop(script) && n < |script|
    ensures var t, u := At(cfg, spec, script, n), At(cfg, spec, script, n + 1);
            && (Waits(t) ==> Attempts(u.trail) > Attempts(t.trail))
            && (!Waits(t) ==> t.stage.InFlight? || t.stage == Finished(Escalated))
  {
    var t, u := At(cfg, spec, script, n), At(cfg, spec, script, n + 1);
    var h := EveryTurn(cfg, spec, script, n);
    BeforeStop(cfg, spec, NEW_TASK, script[..n]);
    assert !StopSeen(script[..n + 1]);
    AttemptsListed(t.trail);
    AttemptsListed(u.trail);
    AttemptsAppend(Events(t.trail), h);
    if Waits(t) {
      FirstCounts(h);
    }
  }

  /** No call raises. */
  predicate Quiet(script: seq<Encounter>) {
    forall i :: 0 <= i < |script| ==> !(true in script[i].moment.faults)
  }

  /** Turn `n` finds no pass in flight: it is the first, or the turn before ended one. */
  predicate Wakes(turns: seq<Moment>, n: nat)
    requires n <= |turns|
  {
    n == 0 || (!Wakes(turns, n - 1) && Ends(turns[n - 1].ending))
  }

  /** What turn `n` adds when nothing raises. */
  function QuietTurn(turns: seq<Moment>, n: nat): seq<Happening>
    requires n < |turns|
  {
    var ending := turns[n].ending;
    if Wakes(turns, n) then [Attempted]
    else if Ends(ending) then [PassEnded(Outcome(ending == FoundWork, ending == Raised || ending == PredicateRaised, false))]
    else []
  }

  function QuietHistory(turns: seq<Moment>, n: nat): seq<Happening>
    requires n <= |turns|
  {
    if n == 0 then [] else QuietHistory(turns, n - 1) + QuietTurn(turns, n - 1)
  }

  function WakingTurns(turns: seq<Moment>, n: nat): nat
    requires n <= |turns|
  {
    if n == 0 then 0 else WakingTurns(turns, n - 1) + if Wakes(turns, n - 1) then 1 else 0
  }

  lemma {:induction false} NothingRaises(h: seq<Happening>, faults: seq<bool>)
    requires Obeys(CallsShown(h), faults) && !(true in faults) && (h != [] ==> IsCall(h[0]))
    ensures |h| <= 1
  {
    if h != [] {
      assert CallsShown(h)[0] == (|h| > 1);
    }
  }

  /** One turn of such a history. */
  lemma {:induction false} QuietTurnAdds(t: Task, turns: seq<Moment>, n: nat, h: seq<Happening>, u: Task)
    requires n < |turns| && Turns(t, false, turns[n], h, u) && !(true in turns[n].faults)
    requires if Wakes(turns, n) then Waits(t) else t.stage.InFlight?
    ensures h == QuietTurn(turns, n)
    ensures if Wakes(turns, n + 1) then Waits(u) else u.stage.InFlight?
  {
    NothingRaises(h, turns[n].faults);
    assert h == [] || h == [h[0]];
  }

  lemma QuietAttempts(turns: seq<Moment>, n: nat)
    requires n < |turns|
    ensures AttemptsIn(QuietTurn(turns, n)) == if Wakes(turns, n) then 1 else 0
  {
    assert forall h :: AttemptsIn([h]) == AttemptsIn([]) + if h == Attempted then 1 else 0 by {
      forall h ensures AttemptsIn([h]) == AttemptsIn([]) + if h == Attempted then 1 else 0 {
        assert [h][..0] == [];
      }
    }
  }

  /** A worker's history so far, and whether a pass is in flight, are what the turns say. */
  ghost predicate ReadOff(t: Task, turns: seq<Moment>, n: nat)
    requires n <= |turns|
  {
    && Events(t.trail) == QuietHistory(turns, n) && AttemptsIn(Events(t.trail)) == WakingTurns(turns, n)
    && if Wakes(turns, n) then Waits(t) else t.stage.InFlight?
  }

  /** A history in which nothing raises, read off the script alone: every pass, its verdict, and when the
      next one starts. A pass is attempted at every turn that finds none in flight. */
  lemma {:induction false} QuietRun(cfg: Config, spec: Spec, script: seq<Encounter>, n: nat)
    requires NoStop(script) && Quiet(script) && n <= |script|
    ensures ReadOff(At(cfg, spec, script, n), Moments(script), n)
  {
    if n > 0 {
      NoStopSeen(script, n);
      hide *;
      QuietRun(cfg, spec, script, n - 1);
      var h := EveryTurn(cfg, spec, script, n - 1);
      QuietGrows(At(cfg, spec, script, n - 1), Moments(script), n, h, At(cfg, spec, script, n));
    }
  }

  lemma NoStopSeen(script: seq<Encounter>, n: nat)
    requires NoStop(script) && Quiet(script) && 0 < n <= |script|
    ensures !StopSeen(script[..n]) && |Moments(script)| == |script| && Moments(script)[n - 1] == script[n - 1].moment
    ensures !(true in Moments(script)[n - 1].faults)
  {
  }

  lemma TurnGrows(t: Task, m: Moment, h: seq<Happening>, u: Task)
    requires Turns(t, false, m, h, u)
    ensures Events(u.trail) == Events(t.trail) + h
  {
  }

  lemma QuietCounts(so: seq<Happening>, turns: seq<Moment>, n: nat)
    requires 0 < n <= |turns| && so == QuietHistory(turns, n - 1) && AttemptsIn(so) == WakingTurns(turns, n - 1)
    ensures so + QuietTurn(turns, n - 1) == QuietHistory(turns, n)
    ensures AttemptsIn(so + QuietTurn(turns, n - 1)) == WakingTurns(turns, n)
  {
    AttemptsAppend(so, QuietTurn(turns, n - 1));
    QuietAttempts(turns, n - 1);
    hide AttemptsIn, QuietTurn, Wakes;
  }

  lemma QuietGrows(t: Task, turns: seq<Moment>, n: nat, h: seq<Happening>, u: Task)
    requires 0 < n <= |turns| && Turns(t, false, turns[n - 1], h, u) && !(true in turns[n - 1].faults)
    requires ReadOff(t, turns, n - 1)
    ensures ReadOff(u, turns, n)
  {
    hide Wakes, QuietTurn, AttemptsIn, Turns, Waits, QuietHistory, WakingTurns, Events;
    QuietTurnAdds(t, turns, n - 1, h, u);
    TurnGrows(t, turns[n - 1], h, u);
    QuietCounts(Events(t.trail), turns, n);
  }

  /** When every pass ends by the turn after its start, every other turn starts one. */
  lemma {:induction false} EveryOtherTurn(turns: seq<Moment>, n: nat)
    requires n <= |turns| && forall i :: 0 <= i < |turns| ==> Ends(turns[i].ending)
    ensures (Wakes(turns, n) <==> n % 2 == 0) && WakingTurns(turns, n) == (n + 1) / 2
  {
    if n > 0 {
      EveryOtherTurn(turns, n - 1);
    }
  }

  // ---- Reports ---------------------------------------------------------------------------------------------

  /** A report is a reading of the whole history, over all incarnations. */
  lemma {:induction false} ReportReadsHistory(cfg: Config, spec: Spec, script: seq<Encounter>)
    requires Drive(cfg, spec, NEW_TASK, false, script).stage.Finished?
    ensures var t := Drive(cfg, spec, NEW_TASK, false, script);
            var r := Report(spec, t);
            && r.name == spec.name && r.passes == Ended(t.trail) && r.failures == FailuresIn(t.trail)
            && (r.abandoned <==> AbandonedIn(t.trail) == 1)
            && (r.escalated <==> t.trail.After? && t.trail.last == SupervisorDied(false))
            && r.restarts == Deaths(t.trail) - (if t.trail.After? && t.trail.last.SupervisorDied? then 1 else 0)
  {
    AlwaysSound(cfg, spec, NEW_TASK, false, script);
  }
}
