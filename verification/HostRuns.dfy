/** Many supervised workers under one stop flag: every interleaving of their turns. */
module HostRuns {
  import opened Supervision

  datatype HostEvent = StopRequested | Turn(worker: nat, moment: Moment)

  datatype Host = Host(stopping: bool, tasks: seq<Task>)

  function NewHost(specs: seq<Spec>): (h: Host)
    ensures |h.tasks| == |specs| && !h.stopping
  {
    Host(false, seq(|specs|, i => NEW_TASK))
  }

  function HostStep(cfg: Config, specs: seq<Spec>, h: Host, e: HostEvent): (h': Host)
    requires |h.tasks| == |specs|
    ensures |h'.tasks| == |specs|
  {
    match e
    case StopRequested => h.(stopping := true)
    case Turn(i, m) =>
      if i < |specs| then h.(tasks := h.tasks[i := Resume(cfg, specs[i], h.tasks[i], h.stopping, m)]) else h
  }

  function HostRun(cfg: Config, specs: seq<Spec>, h: Host, schedule: seq<HostEvent>): (h': Host)
    requires |h.tasks| == |specs|
    ensures |h'.tasks| == |specs|
    decreases |schedule|
  {
    if schedule == [] then h else HostRun(cfg, specs, HostStep(cfg, specs, h, schedule[0]), schedule[1..])
  }

  /** What worker `i` alone meets during a schedule: its own turns, and stop where it happened. */
  function Projection(schedule: seq<HostEvent>, i: nat, stopArrived: bool): seq<Encounter>
    decreases |schedule|
  {
    if schedule == [] then []
    else match schedule[0]
      case StopRequested => Projection(schedule[1..], i, true)
      case Turn(j, m) =>
        if j == i then [Encounter(stopArrived, m)] + Projection(schedule[1..], i, false)
        else Projection(schedule[1..], i, stopArrived)
  }

  /** The schedule of a one-worker host: the turns of `i`, renumbered, and every stop request. */
  function Restrict(schedule: seq<HostEvent>, i: nat): seq<HostEvent>
    decreases |schedule|
  {
    if schedule == [] then []
    else match schedule[0]
      case StopRequested => [StopRequested] + Restrict(schedule[1..], i)
      case Turn(j, m) => (if j == i then [Turn(0, m)] else []) + Restrict(schedule[1..], i)
  }

  predicate Stops(schedule: seq<HostEvent>) {
    StopRequested in schedule
  }

  /** A task depends on nothing but its own turns and the stop flag. The flag may already be set
      (`h.stopping`) or have arrived since its last turn (`arrived`). */
  lemma {:induction false} TaskIsItsOwnDrive(cfg: Config, specs: seq<Spec>, h: Host, schedule: seq<HostEvent>, i: nat,
                                             before: bool, arrived: bool)
    requires i < |specs| == |h.tasks|
    requires h.stopping == (before || arrived)
    ensures HostRun(cfg, specs, h, schedule).tasks[i]
         == Drive(cfg, specs[i], h.tasks[i], before, Projection(schedule, i, arrived))
    decreases |schedule|
  {
    if schedule != [] {
      var h' := HostStep(cfg, specs, h, schedule[0]);
      match schedule[0] {
        case StopRequested => TaskIsItsOwnDrive(cfg, specs, h', schedule[1..], i, before, true);
        case Turn(j, m) =>
          if j == i {
            var rest := Projection(schedule[1..], i, false);
            assert ([Encounter(arrived, m)] + rest)[1..] == rest;
            TaskIsItsOwnDrive(cfg, specs, h', schedule[1..], i, h.stopping, false);
          } else {
            TaskIsItsOwnDrive(cfg, specs, h', schedule[1..], i, before, arrived);
          }
      }
    }
  }

  lemma {:induction false} RestrictKeepsProjection(schedule: seq<HostEvent>, i: nat, arrived: bool)
    ensures Projection(Restrict(schedule, i), 0, arrived) == Projection(schedule, i, arrived)
    decreases |schedule|
  {
    if schedule != [] {
      var rest := Restrict(schedule[1..], i);
      match schedule[0] {
        case StopRequested =>
          assert ([StopRequested] + rest)[1..] == rest;
          RestrictKeepsProjection(schedule[1..], i, true);
        case Turn(j, m) =>
          if j == i {
            assert ([Turn(0, m)] + rest)[1..] == rest;
            RestrictKeepsProjection(schedule[1..], i, false);
          } else {
            assert [] + rest == rest;
            RestrictKeepsProjection(schedule[1..], i, arrived);
          }
      }
    }
  }

  /** HOST-2. At every point of every interleaving a worker is exactly where a one-worker host fed
      only that worker's turns, with stop at the same points, would have it. */
  lemma {:induction false} Noninterference(cfg: Config, specs: seq<Spec>, schedule: seq<HostEvent>, i: nat, upTo: nat)
    requires i < |specs| && upTo <= |schedule|
    ensures HostRun(cfg, specs, NewHost(specs), schedule[..upTo]).tasks[i]
         == HostRun(cfg, [specs[i]], NewHost([specs[i]]), Restrict(schedule[..upTo], i)).tasks[0]
  {
    var seen := schedule[..upTo];
    TaskIsItsOwnDrive(cfg, specs, NewHost(specs), seen, i, false, false);
    TaskIsItsOwnDrive(cfg, [specs[i]], NewHost([specs[i]]), Restrict(seen, i), 0, false, false);
    RestrictKeepsProjection(seen, i, false);
  }

  lemma {:induction false} RunAppend(cfg: Config, specs: seq<Spec>, h: Host, a: seq<HostEvent>, b: seq<HostEvent>)
    requires |h.tasks| == |specs|
    ensures HostRun(cfg, specs, h, a + b) == HostRun(cfg, specs, HostRun(cfg, specs, h, a), b)
    decreases |a|
  {
    if a == [] {
      assert a + b == b;
    } else {
      assert (a + b)[1..] == a[1..] + b;
      RunAppend(cfg, specs, HostStep(cfg, specs, h, a[0]), a[1..], b);
    }
  }

  lemma {:induction false} ProjectionWithoutStop(schedule: seq<HostEvent>, i: nat)
    requires !Stops(schedule)
    ensures NoStop(Projection(schedule, i, false))
    decreases |schedule|
  {
    if schedule != [] {
      assert schedule[0] in schedule;
      assert forall e :: e in schedule[1..] ==> e in schedule;
      ProjectionWithoutStop(schedule[1..], i);
    }
  }

  /** The turns worker `i` gets in a schedule. */
  function TurnsOf(schedule: seq<HostEvent>, i: nat): seq<Moment>
    decreases |schedule|
  {
    if schedule == [] then []
    else (if schedule[0].Turn? && schedule[0].worker == i then [schedule[0].moment] else []) + TurnsOf(schedule[1..], i)
  }

  lemma {:induction false} ProjectionIsTurns(schedule: seq<HostEvent>, i: nat, arrived: bool)
    ensures Moments(Projection(schedule, i, arrived)) == TurnsOf(schedule, i)
    decreases |schedule|
  {
    if schedule != [] {
      match schedule[0] {
        case StopRequested => ProjectionIsTurns(schedule[1..], i, true);
        case Turn(j, m) => ProjectionIsTurns(schedule[1..], i, if j == i then false else arrived);
      }
    }
  }

  /** What stop does to one worker, whatever the rest of the schedule is. `before` ends where stop
      is first requested; `after` is everything later. */
  lemma {:induction false} StopAndDrain(cfg: Config, specs: seq<Spec>, before: seq<HostEvent>, after: seq<HostEvent>, i: nat)
    requires i < |specs| && !Stops(before)
    ensures var atStop := HostRun(cfg, specs, NewHost(specs), before).tasks[i];
            && !atStop.abandoned && !atStop.stage.Draining?
            && Drains(atStop, HostRun(cfg, specs, NewHost(specs), before + [StopRequested] + after).tasks[i], TurnsOf(after, i))
  {
    var h0 := NewHost(specs);
    var hs := HostRun(cfg, specs, h0, before);
    var t := hs.tasks[i];
    TaskIsItsOwnDrive(cfg, specs, h0, before, i, false, false);
    ProjectionWithoutStop(before, i);
    BeforeStop(cfg, specs[i], NEW_TASK, Projection(before, i, false));

    assert before + [StopRequested] + after == before + ([StopRequested] + after);
    RunAppend(cfg, specs, h0, before, [StopRequested] + after);
    assert ([StopRequested] + after)[1..] == after;
    var stopped := HostStep(cfg, specs, hs, StopRequested);
    TaskIsItsOwnDrive(cfg, specs, stopped, after, i, true, false);
    AfterStop(cfg, specs[i], t, Projection(after, i, false));
    ProjectionIsTurns(after, i, false);
  }

  /** These turns finish a worker found so at stop: any turn, or with a pass in flight one by which it
      has ended, or a second by which it has or its budget ran out. */
  ghost predicate Enough(t: Task, turns: seq<Moment>) {
    || t.stage.Finished?
    || (turns != [] && (t.stage.InFlight? ==> Ends(turns[0].ending) || exists j :: 1 <= j < |turns| && !turns[j].ending.Unfinished?))
  }

  /** After stop the whole host ends under exactly the schedules that give every worker enough turns. */
  lemma {:induction false} StopTerminates(cfg: Config, specs: seq<Spec>, before: seq<HostEvent>, after: seq<HostEvent>)
    requires !Stops(before)
    ensures AllFinished(HostRun(cfg, specs, NewHost(specs), before + [StopRequested] + after)) <==>
              forall i :: 0 <= i < |specs| ==>
                Enough(HostRun(cfg, specs, NewHost(specs), before).tasks[i], TurnsOf(after, i))
  {
    var end := HostRun(cfg, specs, NewHost(specs), before + [StopRequested] + after);
    var atStop := HostRun(cfg, specs, NewHost(specs), before);
    hide HostRun, Drains, Enough;
    if AllFinished(end) {
      forall i | 0 <= i < |specs| ensures Enough(atStop.tasks[i], TurnsOf(after, i)) {
        EnoughIff(cfg, specs, before, after, i);
        assert end.tasks[i].stage.Finished?;
      }
    } else {
      var i :| 0 <= i < |specs| && !end.tasks[i].stage.Finished?;
      EnoughIff(cfg, specs, before, after, i);
    }
  }

  lemma {:induction false} EnoughIff(cfg: Config, specs: seq<Spec>, before: seq<HostEvent>, after: seq<HostEvent>, i: nat)
    requires i < |specs| && !Stops(before)
    ensures HostRun(cfg, specs, NewHost(specs), before + [StopRequested] + after).tasks[i].stage.Finished?
       <==> Enough(HostRun(cfg, specs, NewHost(specs), before).tasks[i], TurnsOf(after, i))
  {
    StopAndDrain(cfg, specs, before, after, i);
    EndingTurnIff(false, TurnsOf(after, i));
  }

  predicate AllFinished(h: Host) {
    forall i :: 0 <= i < |h.tasks| ==> h.tasks[i].stage.Finished?
  }
}
