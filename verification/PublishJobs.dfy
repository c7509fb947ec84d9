/** Publish jobs: the compare-and-swap transitions of a job's row, and any number of workers and
    creators interleaving. The leases a worker takes first only limit when it may try to claim, so
    what is proved here holds whatever becomes of them, even when one runs out mid-publish. */
module PublishJobs {
  import opened Common

  datatype Status = Queued | Running | Succeeded | Failed | Canceled

  datatype Job = Job(
    asset: string, account: string, status: Status, scheduledAt: Option<int>,
    attempt: nat, maxAttempts: int, version: int)

  type Jobs = map<string, Job>

  /** The statuses of the partial unique index. */
  predicate Active(s: Status) {
    s == Queued || s == Running || s == Succeeded
  }

  predicate SamePair(a: Job, b: Job) {
    a.asset == b.asset && a.account == b.account
  }

  datatype Transition = Claim | Succeed | Fail | Requeue(when: int)

  function From(t: Transition): Status {
    if t.Claim? then Queued else Running
  }

  /** The row the update asks for: every transition sets `version = version + 1` itself. */
  function Rewritten(job: Job, t: Transition): Job {
    var next := job.(version := job.version + 1);
    match t
    case Claim => next.(status := Running, attempt := job.attempt + 1)
    case Succeed => next.(status := Succeeded)
    case Fail => next.(status := Failed)
    case Requeue(when) => next.(status := Queued, scheduledAt := Some(when))
  }

  /** The trigger before every update: it bumps a version the update left alone. */
  function BumpVersion(was: Job, row: Job): Job {
    if row.version == was.version then row.(version := was.version + 1) else row
  }

  /** UPDATE ... WHERE id = :id AND status = :from, with the trigger. */
  function Transit(jobs: Jobs, id: string, t: Transition): Option<Jobs> {
    if id in jobs && jobs[id].status == From(t) then
      Some(jobs[id := BumpVersion(jobs[id], Rewritten(jobs[id], t))])
    else None
  }

  predicate Taken(jobs: Jobs, asset: string, account: string) {
    exists id :: id in jobs && Active(jobs[id].status) && jobs[id].asset == asset && jobs[id].account == account
  }

  function Inserted(jobs: Jobs, id: string, asset: string, account: string, scheduledAt: Option<int>, maxAttempts: int): Option<Jobs> {
    if id in jobs || Taken(jobs, asset, account) then None
    else Some(jobs[id := Job(asset, account, Queued, scheduledAt, 0, maxAttempts, 1)])
  }

  /** What `list_claimable` lists: queued jobs that are due. */
  predicate Claimable(job: Job, now: int) {
    job.status == Queued && (job.scheduledAt.None? || job.scheduledAt.value <= now)
  }

  class PublishJobRepository {
    var jobs: Jobs

    constructor ()
      ensures jobs == map[]
    {
      jobs := map[];
    }

    method Add(id: string, asset: string, account: string, scheduledAt: Option<int>, maxAttempts: int) returns (added: bool)
      modifies this
      ensures added == Inserted(old(jobs), id, asset, account, scheduledAt, maxAttempts).Some?
      ensures jobs == if added then Inserted(old(jobs), id, asset, account, scheduledAt, maxAttempts).value else old(jobs)
    {
      added := id !in jobs && !(exists k :: k in jobs && Active(jobs[k].status) && jobs[k].asset == asset && jobs[k].account == account);
      if added {
        jobs := jobs[id := Job(asset, account, Queued, scheduledAt, 0, maxAttempts, 1)];
      }
    }

    method GetActive(asset: string, account: string) returns (found: Option<string>)
      ensures found.Some? <==> Taken(jobs, asset, account)
      ensures found.Some? ==>
                found.value in jobs && Active(jobs[found.value].status)
                && jobs[found.value].asset == asset && jobs[found.value].account == account
    {
      found := None;
      var left := jobs.Keys;
      while left != {}
        invariant left <= jobs.Keys
        invariant forall k :: k in jobs && k !in left ==>
                    !(Active(jobs[k].status) && jobs[k].asset == asset && jobs[k].account == account)
        decreases |left|
      {
        var k :| k in left;
        if Active(jobs[k].status) && jobs[k].asset == asset && jobs[k].account == account {
          return Some(k);
        }
        left := left - {k};
      }
    }

    /** `mark_running`, `mark_succeeded`, `mark_failed` and `reschedule_for_retry`: one statement each,
        and none at all on a job in another status. */
    method Mark(id: string, t: Transition) returns (job: Option<Job>)
      modifies this
      ensures job.Some? <==> Transit(old(jobs), id, t).Some?
      ensures jobs == if job.Some? then Transit(old(jobs), id, t).value else old(jobs)
      ensures job.Some? ==> id in jobs && job.value == jobs[id]
    {
      job := None;
      if id in jobs && jobs[id].status == From(t) {
        var row := Rewritten(jobs[id], t);
        if row.version == jobs[id].version {
          row := row.(version := row.version + 1);
        }
        jobs := jobs[id := row];
        job := Some(row);
      }
    }
  }

  // ---- Workers ---------------------------------------------------------------------------------------------

  /** A worker between claiming a job and settling it holds the row its claim returned. */
  datatype Phase = Idle | Publishing(id: string, job: Job) | Posted(id: string, job: Job)

  /** A job as it was listed, and when. */
  datatype Listing = Listing(job: Job, at: int)

  /** A worker and what is left of its last scan: it works through the jobs it listed, each once. */
  datatype Worker = Worker(phase: Phase, listed: map<string, Listing>)

  datatype Event =
    | Create(id: string, asset: string, account: string, scheduledAt: Option<int>, maxAttempts: int)
    | Scan(worker: nat, now: int, ids: set<string>)
    | TryClaim(worker: nat, now: int, id: string)
    | Post(worker: nat)
    | SettleSuccess(worker: nat)
    | SettleFailure(worker: nat, retryable: bool, at: int)
    | Crash(worker: nat)

  datatype World = World(jobs: Jobs, workers: map<nat, Worker>)

  function WorkerOf(w: World, worker: nat): Worker {
    if worker in w.workers then w.workers[worker] else Worker(Idle, map[])
  }

  function PhaseOf(w: World, worker: nat): Phase {
    WorkerOf(w, worker).phase
  }

  function Entering(w: World, worker: nat, p: Phase): map<nat, Worker> {
    w.workers[worker := WorkerOf(w, worker).(phase := p)]
  }

  /** A scan returns some of the jobs that are due. */
  predicate IsScan(jobs: Jobs, now: int, ids: set<string>) {
    forall id :: id in ids ==> id in jobs && Claimable(jobs[id], now)
  }

  /** `_backoff`: times are microseconds. */
  const SECOND := 1_000_000
  const RETRY_BASE := 30
  const RETRY_CAP := 3600

  function Backoff(attempt: nat): int {
    var wait := RETRY_BASE * Pow2(if attempt == 0 then 0 else attempt - 1);
    SECOND * if RETRY_CAP <= wait then RETRY_CAP else wait
  }

  /** How a failure is settled: again while the claimed attempt is below the bound. */
  function Settlement(job: Job, retryable: bool, at: int): Transition {
    if retryable && job.attempt < job.maxAttempts then Requeue(at + Backoff(job.attempt)) else Fail
  }

  function Settled(w: World, worker: nat, id: string, t: Transition): World {
    World(Transit(w.jobs, id, t).GetOr(w.jobs), Entering(w, worker, Idle))
  }

  function Claimed(w: World, worker: nat, id: string): World {
    var rest := WorkerOf(w, worker).listed - {id};
    match Transit(w.jobs, id, Claim)
    case Some(jobs) => World(jobs, w.workers[worker := Worker(Publishing(id, jobs[id]), rest)])
    case None => World(w.jobs, w.workers[worker := Worker(Idle, rest)])
  }

  function Next(w: World, e: Event): World {
    match e
    case Create(id, asset, account, scheduledAt, maxAttempts) =>
      w.(jobs := Inserted(w.jobs, id, asset, account, scheduledAt, maxAttempts).GetOr(w.jobs))
    case Scan(worker, now, ids) =>
      if PhaseOf(w, worker).Idle? && IsScan(w.jobs, now, ids) then
        w.(workers := w.workers[worker := Worker(Idle, map id | id in ids && id in w.jobs :: Listing(w.jobs[id], now))])
      else w
    case TryClaim(worker, _, id) =>
      if PhaseOf(w, worker).Idle? && id in WorkerOf(w, worker).listed then Claimed(w, worker, id) else w
    case Post(worker) =>
      (match PhaseOf(w, worker)
       case Publishing(id, job) => w.(workers := Entering(w, worker, Posted(id, job)))
       case _ => w)
    case SettleSuccess(worker) =>
      (match PhaseOf(w, worker)
       case Posted(id, _) => Settled(w, worker, id, Succeed)
       case _ => w)
    case SettleFailure(worker, retryable, at) =>
      (match PhaseOf(w, worker)
       case Publishing(id, job) => Settled(w, worker, id, Settlement(job, retryable, at))
       case _ => w)
    case Crash(worker) => w.(workers := Entering(w, worker, Idle))
  }

  function After(w: World, events: seq<Event>): World {
    if events == [] then w else Next(After(w, events[..|events| - 1]), events[|events| - 1])
  }

  const START := World(map[], map[])

  // ---- What every step keeps -------------------------------------------------------------------------------

  predicate Holds(p: Phase, id: string) {
    !p.Idle? && p.id == id
  }

  ghost predicate OnePerPair(jobs: Jobs) {
    forall a, b :: a in jobs && b in jobs && a != b && Active(jobs[a].status) && Active(jobs[b].status) ==>
      !SamePair(jobs[a], jobs[b])
  }

  /** A worker holding a job holds its current row, and the job is running. */
  ghost predicate HeldIsRunning(w: World) {
    forall worker :: worker in w.workers && !w.workers[worker].phase.Idle? ==>
      var p := w.workers[worker].phase; p.id in w.jobs && w.jobs[p.id] == p.job && p.job.status == Running
  }

  ghost predicate OneHolder(w: World) {
    forall a, b :: a in w.workers && b in w.workers && a != b && !w.workers[a].phase.Idle? ==>
      !Holds(w.workers[b].phase, w.workers[a].phase.id)
  }

  predicate AttemptsBounded(job: Job) {
    && (job.status == Queued && job.attempt > 0 ==> job.attempt < job.maxAttempts)
    && job.attempt <= (if job.maxAttempts < 1 then 1 else job.maxAttempts)
    && (job.attempt == 0 ==> job.status == Queued)
  }

  ghost predicate Inv(w: World) {
    && OnePerPair(w.jobs) && HeldIsRunning(w) && OneHolder(w)
    && forall id :: id in w.jobs ==> AttemptsBounded(w.jobs[id])
  }

  lemma TransitKeepsPairs(jobs: Jobs, id: string, t: Transition)
    requires OnePerPair(jobs) && Transit(jobs, id, t).Some?
    ensures OnePerPair(Transit(jobs, id, t).value)
  {
    var jobs' := Transit(jobs, id, t).value;
    forall a, b | a in jobs' && b in jobs' && a != b && Active(jobs'[a].status) && Active(jobs'[b].status)
      ensures !SamePair(jobs'[a], jobs'[b])
    {
      assert Active(jobs[a].status) && Active(jobs[b].status) && !SamePair(jobs[a], jobs[b]);
    }
  }

  lemma InsertKeepsPairs(jobs: Jobs, id: string, asset: string, account: string, scheduledAt: Option<int>, maxAttempts: int)
    requires OnePerPair(jobs) && Inserted(jobs, id, asset, account, scheduledAt, maxAttempts).Some?
    ensures OnePerPair(Inserted(jobs, id, asset, account, scheduledAt, maxAttempts).value)
  {
    var jobs' := Inserted(jobs, id, asset, account, scheduledAt, maxAttempts).value;
    forall a, b | a in jobs' && b in jobs' && a != b && Active(jobs'[a].status) && Active(jobs'[b].status)
      ensures !SamePair(jobs'[a], jobs'[b])
    {
      assert a != id ==> a in jobs && (SamePair(jobs[a], jobs'[id]) ==> Taken(jobs, asset, account));
      assert b != id ==> b in jobs && (SamePair(jobs[b], jobs'[id]) ==> Taken(jobs, asset, account));
    }
  }

  lemma SettleKeeps(w: World, worker: nat, t: Transition)
    requires Inv(w) && !PhaseOf(w, worker).Idle? && !t.Claim?
    requires t.Requeue? ==> PhaseOf(w, worker).job.attempt < PhaseOf(w, worker).job.maxAttempts
    ensures Transit(w.jobs, PhaseOf(w, worker).id, t).Some?
    ensures Inv(Settled(w, worker, PhaseOf(w, worker).id, t))
  {
    TransitKeepsPairs(w.jobs, PhaseOf(w, worker).id, t);
  }

  lemma ClaimKeeps(w: World, worker: nat, id: string)
    requires Inv(w) && PhaseOf(w, worker).Idle?
    ensures Inv(Claimed(w, worker, id))
  {
    if Transit(w.jobs, id, Claim).Some? {
      TransitKeepsPairs(w.jobs, id, Claim);
    }
  }

  /** Creating a job, listing, posting and crashing change no other job and claim none. */
  lemma QuietStepKeeps(w: World, e: Event)
    requires Inv(w) && (e.Create? || e.Scan? || e.Post? || e.Crash?)
    ensures Inv(Next(w, e))
  {
    if e.Create? && Inserted(w.jobs, e.id, e.asset, e.account, e.scheduledAt, e.maxAttempts).Some? {
      InsertKeepsPairs(w.jobs, e.id, e.asset, e.account, e.scheduledAt, e.maxAttempts);
    }
    hide OnePerPair, Claimable, IsScan, Transit, Taken, AttemptsBounded;
    NewJobBounded(w.jobs, e);
  }

  lemma NewJobBounded(jobs: Jobs, e: Event)
    requires e.Create? ==> forall id :: id in jobs ==> AttemptsBounded(jobs[id])
    ensures e.Create? ==>
              var jobs' := Inserted(jobs, e.id, e.asset, e.account, e.scheduledAt, e.maxAttempts).GetOr(jobs);
              forall id :: id in jobs' ==> AttemptsBounded(jobs'[id])
  {
    hide Taken;
  }

  lemma StepKeepsInv(w: World, e: Event)
    requires Inv(w)
    ensures Inv(Next(w, e))
  {
    hide Inv, Transit, Settled, Claimed;
    match e
    case Create(_, _, _, _, _) | Scan(_, _, _) | Post(_) | Crash(_) => QuietStepKeeps(w, e);
    case TryClaim(worker, _, id) =>
      if PhaseOf(w, worker).Idle? {
        ClaimKeeps(w, worker, id);
      }
    case SettleSuccess(worker) =>
      if PhaseOf(w, worker).Posted? {
        SettleKeeps(w, worker, Succeed);
      }
    case SettleFailure(worker, retryable, at) =>
      if PhaseOf(w, worker).Publishing? {
        SettleKeeps(w, worker, Settlement(PhaseOf(w, worker).job, retryable, at));
      }
  }

  lemma {:induction false} RunKeepsInv(events: seq<Event>)
    ensures Inv(After(START, events))
  {
    if events != [] {
      RunKeepsInv(events[..|events| - 1]);
      StepKeepsInv(After(START, events[..|events| - 1]), events[|events| - 1]);
    }
  }

  /** Over every run: at most one active or fulfilled job per artifact and account, at most one worker
      publishing a job, and never more claims than the bound allows. */
  lemma {:induction false} Exclusive(events: seq<Event>, a: string, b: string, v: nat, u: nat)
    ensures var w := After(START, events);
            a in w.jobs && b in w.jobs && w.jobs[a].asset == w.jobs[b].asset && w.jobs[a].account == w.jobs[b].account
            && {w.jobs[a].status, w.jobs[b].status} <= {Queued, Running, Succeeded}
            ==> a == b
    ensures var w := After(START, events); Holds(PhaseOf(w, v), a) && Holds(PhaseOf(w, u), a) ==> v == u
    ensures var w := After(START, events);
            a in w.jobs ==> w.jobs[a].attempt <= (if w.jobs[a].maxAttempts < 1 then 1 else w.jobs[a].maxAttempts)
  {
    RunKeepsInv(events);
  }

  // ---- Absorbing statuses ----------------------------------------------------------------------------------

  predicate Terminal(s: Status) {
    s == Succeeded || s == Failed || s == Canceled
  }

  predicate HeldBySome(w: World, id: string) {
    exists worker :: worker in w.workers && Holds(w.workers[worker].phase, id)
  }

  /** A job nobody is working on that is not queued: settled for good, or left running by a crash. */
  ghost predicate AtRest(w: World, id: string) {
    id in w.jobs && w.jobs[id].status != Queued && !HeldBySome(w, id)
  }

  lemma RestStep(w: World, e: Event, id: string)
    requires Inv(w) && AtRest(w, id)
    ensures AtRest(Next(w, e), id) && Next(w, e).jobs[id] == w.jobs[id]
  {
    hide OnePerPair, AttemptsBounded, OneHolder;
    var w' := Next(w, e);
    forall worker | worker in w'.workers ensures !Holds(w'.workers[worker].phase, id) {
      if worker in w.workers {
        assert !Holds(w.workers[worker].phase, id);
      }
    }
  }

  lemma {:induction false} RestRun(w: World, events: seq<Event>, id: string)
    requires Inv(w) && AtRest(w, id)
    ensures Inv(After(w, events)) && AtRest(After(w, events), id) && After(w, events).jobs[id] == w.jobs[id]
  {
    if events != [] {
      var front := events[..|events| - 1];
      RestRun(w, front, id);
      RestStep(After(w, front), events[|events| - 1], id);
      StepKeepsInv(After(w, front), events[|events| - 1]);
    }
  }

  /** A settled job never changes again. */
  lemma {:induction false} TerminalIsAbsorbing(before: seq<Event>, after: seq<Event>, id: string)
    requires id in After(START, before).jobs && Terminal(After(START, before).jobs[id].status)
    ensures id in After(START, before + after).jobs
    ensures After(START, before + after).jobs[id] == After(START, before).jobs[id]
  {
    RunKeepsInv(before);
    RestRun(After(START, before), after, id);
    AfterAppend(START, before, after);
  }

  /** A worker that dies between claim and settlement leaves its job running for good: no worker ever
      claims it, so nothing is posted twice, and no further job for the pair can be created. */
  lemma {:induction false} CrashLeavesRunning(before: seq<Event>, after: seq<Event>, worker: nat, id: string)
    requires Holds(PhaseOf(After(START, before), worker), id)
    ensures var w := After(START, before + [Crash(worker)] + after);
            && id in w.jobs && id in After(START, before).jobs && w.jobs[id] == After(START, before).jobs[id]
            && Stuck(w, id)
            && forall other: string, scheduledAt, maxAttempts ::
                 Inserted(w.jobs, other, w.jobs[id].asset, w.jobs[id].account, scheduledAt, maxAttempts) == None
  {
    var w0 := After(START, before);
    RunKeepsInv(before);
    AfterAppend(START, before, [Crash(worker)]);
    AfterAppend(START, before + [Crash(worker)], after);
    AfterOne(w0, Crash(worker));
    var w1 := Next(w0, Crash(worker));
    StepKeepsInv(w0, Crash(worker));
    CrashRests(w0, worker, id);
    RestRun(w1, after, id);
  }

  lemma CrashRests(w: World, worker: nat, id: string)
    requires Inv(w) && Holds(PhaseOf(w, worker), id)
    ensures AtRest(Next(w, Crash(worker)), id)
  {
    var w' := Next(w, Crash(worker));
    forall v | v in w'.workers ensures !Holds(w'.workers[v].phase, id) {
      assert v != worker ==> v in w.workers && !Holds(w.workers[v].phase, id);
    }
  }

  /** A running job that no worker is working on. */
  ghost predicate Stuck(w: World, id: string) {
    id in w.jobs && w.jobs[id].status == Running && !HeldBySome(w, id)
  }

  /** The event at `i` is a crash of the worker that holds the job. */
  ghost predicate CrashHits(events: seq<Event>, i: nat, id: string)
    requires i < |events|
  {
    events[i].Crash? && Holds(PhaseOf(After(START, events[..i]), events[i].worker), id)
  }

  /** Nothing but a crash of its worker leaves a running job behind. */
  lemma StuckStep(w: World, e: Event, id: string)
    requires Inv(w) && Stuck(Next(w, e), id)
    ensures Stuck(w, id) || (e.Crash? && Holds(PhaseOf(w, e.worker), id))
  {
    hide OnePerPair, AttemptsBounded;
    var w' := Next(w, e);
    assert e.TryClaim? && e.worker in w'.workers ==> !Holds(w'.workers[e.worker].phase, id);
    if worker :| worker in w.workers && Holds(w.workers[worker].phase, id) {
      assert worker in w'.workers;
    }
  }

  lemma {:induction false} CrashSticks(events: seq<Event>, i: nat, id: string)
    requires i < |events| && CrashHits(events, i, id)
    ensures Stuck(After(START, events), id)
  {
    assert events == events[..i] + [events[i]] + events[i + 1..];
    CrashLeavesRunning(events[..i], events[i + 1..], events[i].worker, id);
  }

  lemma {:induction false} StuckByCrash(events: seq<Event>, id: string) returns (i: nat)
    requires Stuck(After(START, events), id)
    ensures i < |events| && CrashHits(events, i, id)
  {
    var n := |events| - 1;
    RunKeepsInv(events[..n]);
    StuckStep(After(START, events[..n]), events[n], id);
    hide Stuck, Inv, Next;
    if Stuck(After(START, events[..n]), id) {
      i := StuckByCrash(events[..n], id);
      assert events[..n][..i] == events[..i];
    } else {
      i := n;
    }
  }

  /** Over every run: a job is running with nobody on it exactly when a crash hit the worker that held
      it. Without such a crash every running job is being worked on. */
  lemma {:induction false} StuckIff(events: seq<Event>, id: string)
    ensures Stuck(After(START, events), id) <==> exists i :: 0 <= i < |events| && CrashHits(events, i, id)
  {
    hide Stuck, CrashHits;
    if Stuck(After(START, events), id) {
      var i := StuckByCrash(events, id);
    }
    if i :| 0 <= i < |events| && CrashHits(events, i, id) {
      CrashSticks(events, i, id);
    }
  }

  lemma {:induction false} AfterOne(w: World, e: Event)
    ensures After(w, [e]) == Next(w, e)
  {
    assert [e][..0] == [] && After(w, []) == w;
  }

  lemma {:induction false} AfterNext(events: seq<Event>, e: Event)
    ensures After(START, events + [e]) == Next(After(START, events), e)
  {
    assert (events + [e])[..|events|] == events;
  }

  lemma {:induction false} AfterAppend(w: World, a: seq<Event>, b: seq<Event>)
    ensures After(w, a + b) == After(After(w, a), b)
  {
    if b == [] {
      assert a + b == a;
    } else {
      assert (a + b)[..|a + b| - 1] == a + b[..|b| - 1];
      AfterAppend(w, a, b[..|b| - 1]);
    }
  }

  // ---- Counting --------------------------------------------------------------------------------------------

  datatype Tally = Tally(claims: nat, transitions: nat, posts: nat)

  function Plus(t: Tally, claim: bool, transition: bool, post: bool): Tally {
    Tally(t.claims + (if claim then 1 else 0), t.transitions + (if transition then 1 else 0), t.posts + (if post then 1 else 0))
  }

  predicate WinsClaim(w: World, e: Event, id: string) {
    && e.TryClaim? && e.id == id && PhaseOf(w, e.worker).Idle? && id in WorkerOf(w, e.worker).listed
    && Transit(w.jobs, id, Claim).Some?
  }

  predicate Settles(w: World, e: Event, id: string) {
    || (e.SettleSuccess? && PhaseOf(w, e.worker).Posted? && PhaseOf(w, e.worker).id == id)
    || (e.SettleFailure? && PhaseOf(w, e.worker).Publishing? && PhaseOf(w, e.worker).id == id)
  }

  predicate Posts(w: World, e: Event, id: string) {
    e.Post? && PhaseOf(w, e.worker).Publishing? && PhaseOf(w, e.worker).id == id
  }

  function Tallied(w: World, e: Event, id: string, t: Tally): Tally {
    Plus(t, WinsClaim(w, e, id), WinsClaim(w, e, id) || Settles(w, e, id), Posts(w, e, id))
  }

  /** What happened to a job in a run: claims won, transitions made, posts that went out. */
  function TallyOf(events: seq<Event>, id: string): Tally {
    if events == [] then Tally(0, 0, 0)
    else
      var front, e := events[..|events| - 1], events[|events| - 1];
      var w := After(START, front);
      Tallied(w, e, id, TallyOf(front, id))
  }

  predicate Accounted(w: World, id: string, t: Tally) {
    && (id !in w.jobs ==> t == Tally(0, 0, 0))
    && (id in w.jobs ==>
          && w.jobs[id].attempt == t.claims && w.jobs[id].version == 1 + t.transitions
          && t.posts <= 1
          && (w.jobs[id].status == Succeeded ==> t.posts == 1)
          && (t.posts == 1 ==> w.jobs[id].status == Succeeded || w.jobs[id].status == Running))
  }

  ghost predicate PhasesAccounted(w: World, id: string, t: Tally) {
    forall worker :: worker in w.workers && Holds(w.workers[worker].phase, id) ==>
      (w.workers[worker].phase.Posted? <==> t.posts == 1)
  }

  lemma CountStep(w: World, e: Event, id: string, t: Tally)
    requires Inv(w) && Accounted(w, id, t) && PhasesAccounted(w, id, t)
    ensures Accounted(Next(w, e), id, Tallied(w, e, id, t))
  {
    hide OnePerPair, AttemptsBounded, OneHolder;
    match e
    case Create(_, _, _, _, _) =>
    case Scan(_, _, _) =>
    case TryClaim(_, _, _) =>
    case Post(_) =>
    case SettleSuccess(_) =>
    case SettleFailure(_, _, _) =>
    case Crash(_) =>
  }

  lemma PhaseStep(w: World, e: Event, id: string, t: Tally)
    requires Inv(w) && Accounted(w, id, t) && PhasesAccounted(w, id, t)
    ensures PhasesAccounted(Next(w, e), id, Tallied(w, e, id, t))
  {
    hide OnePerPair, AttemptsBounded;
    match e
    case Create(_, _, _, _, _) =>
    case Scan(_, _, _) =>
    case TryClaim(_, _, _) =>
    case Post(_) =>
    case SettleSuccess(_) =>
    case SettleFailure(_, _, _) =>
    case Crash(_) =>
  }

  /** Over every run `attempt` is the number of claims won, `version` one more than the number of
      transitions, and a job is posted at most once: exactly once if it succeeded, never if it failed
      or is queued, whatever crashes in between. */
  lemma {:induction false} Counts(events: seq<Event>, id: string)
    ensures Accounted(After(START, events), id, TallyOf(events, id))
    ensures PhasesAccounted(After(START, events), id, TallyOf(events, id))
  {
    if events != [] {
      var front, e := events[..|events| - 1], events[|events| - 1];
      Counts(front, id);
      RunKeepsInv(front);
      CountStep(After(START, front), e, id, TallyOf(front, id));
      PhaseStep(After(START, front), e, id, TallyOf(front, id));
      hide Accounted, PhasesAccounted, Next, Tallied;
    }
  }

  // ---- Creation --------------------------------------------------------------------------------------------

  /** A job of the pair that waits, runs or was published. */
  ghost predicate InTheWay(jobs: Jobs, asset: string, account: string) {
    exists k :: k in jobs && jobs[k].asset == asset && jobs[k].account == account
                && jobs[k].status != Failed && jobs[k].status != Canceled
  }

  /** Over every run: a job comes in, queued and untried, exactly when its id is new and no job of the pair
      waits, runs or was published; otherwise nothing changes. */
  lemma {:induction false} CreateIff(events: seq<Event>, id: string, asset: string, account: string, scheduledAt: Option<int>,
                                     maxAttempts: int)
    ensures var w := After(START, events);
            After(START, events + [Create(id, asset, account, scheduledAt, maxAttempts)]) ==
            if id !in w.jobs && !InTheWay(w.jobs, asset, account)
            then w.(jobs := w.jobs[id := Job(asset, account, Queued, scheduledAt, 0, maxAttempts, 1)]) else w
  {
    var w := After(START, events);
    AfterNext(events, Create(id, asset, account, scheduledAt, maxAttempts));
    assert InTheWay(w.jobs, asset, account) <==> Taken(w.jobs, asset, account);
  }

  predicate CreatesIt(e: Event, id: string, job: Job) {
    e.Create? && e.id == id && e.asset == job.asset && e.account == job.account && e.maxAttempts == job.maxAttempts
  }

  predicate ReschedulesTo(e: Event, when: Option<int>) {
    e.SettleFailure? && e.retryable && when.Some? && e.at + 30 * SECOND <= when.value <= e.at + 3600 * SECOND
  }

  /** How long a retry waits after so many attempts, in seconds. */
  const WAITS := [30, 60, 120, 240, 480, 960, 1920, 3600]

  function WaitAfter(attempts: nat): int
    requires attempts > 0
  {
    SECOND * WAITS[if attempts <= 8 then attempts - 1 else 7]
  }

  lemma {:induction false} Pow2Grows(k: nat)
    requires k >= 7
    ensures Pow2(k) >= 128
  {
    if k == 7 {
      assert Pow2(3) == 8 && Pow2(5) == 32;
    } else {
      Pow2Grows(k - 1);
    }
  }

  lemma BackoffIs(attempts: nat)
    ensures attempts > 0 ==> Backoff(attempts) == WaitAfter(attempts)
    ensures 30 * SECOND <= Backoff(attempts) <= 3600 * SECOND
  {
    assert Pow2(2) == 4 && Pow2(4) == 16 && Pow2(6) == 64;
    if attempts >= 8 {
      Pow2Grows(attempts - 1);
    }
  }

  /** Over every run: a job keeps the artifact, the account and the bound it was created with, and its
      schedule is the one it was created with or the one of a later retry. */
  lemma {:induction false} JobKeepsItsTerms(events: seq<Event>, id: string) returns (i: nat)
    requires id in After(START, events).jobs
    ensures var job := After(START, events).jobs[id];
            && i < |events| && CreatesIt(events[i], id, job)
            && (job.scheduledAt == events[i].scheduledAt
                || exists j :: i < j < |events| && ReschedulesTo(events[j], job.scheduledAt))
  {
    var n := |events| - 1;
    var w, e := After(START, events[..n]), events[n];
    var job := Next(w, e).jobs[id];
    RunKeepsInv(events[..n]);
    if id in w.jobs {
      i := JobKeepsItsTerms(events[..n], id);
      var was := w.jobs[id];
      TermsStep(w, e, id);
      if job.scheduledAt == was.scheduledAt && was.scheduledAt != events[i].scheduledAt {
        var j :| i < j < n && ReschedulesTo(events[..n][j], was.scheduledAt);
        assert ReschedulesTo(events[j], job.scheduledAt);
      } else if job.scheduledAt != was.scheduledAt {
        assert ReschedulesTo(events[n], job.scheduledAt);
      }
    } else {
      i := n;
    }
  }

  lemma TermsStep(w: World, e: Event, id: string)
    requires Inv(w) && id in w.jobs
    ensures id in Next(w, e).jobs
    ensures var was, job := w.jobs[id], Next(w, e).jobs[id];
            && job.asset == was.asset && job.account == was.account && job.maxAttempts == was.maxAttempts
            && (job.scheduledAt == was.scheduledAt || ReschedulesTo(e, job.scheduledAt))
  {
    hide OnePerPair, AttemptsBounded, OneHolder, HeldIsRunning, Backoff;
    if e.SettleFailure? && PhaseOf(w, e.worker).Publishing? {
      BackoffIs(PhaseOf(w, e.worker).job.attempt);
    }
  }

  // ---- Claiming --------------------------------------------------------------------------------------------

  /** Over every run: trying a job that was listed wins exactly when it is still queued; a claim counts an
      attempt and makes the worker its holder, and nothing changes for a job that is not queued. */
  lemma {:induction false} ClaimIff(events: seq<Event>, worker: nat, now: int, id: string)
    requires PhaseOf(After(START, events), worker).Idle? && id in WorkerOf(After(START, events), worker).listed
    ensures var w, then_ := After(START, events), After(START, events + [TryClaim(worker, now, id)]);
            && id in w.jobs && id !in WorkerOf(then_, worker).listed
            && if w.jobs[id].status == Queued then
                 var job := w.jobs[id].(status := Running, attempt := w.jobs[id].attempt + 1, version := w.jobs[id].version + 1);
                 then_.jobs == w.jobs[id := job] && PhaseOf(then_, worker) == Publishing(id, job)
               else then_.jobs == w.jobs && PhaseOf(then_, worker) == Idle
  {
    RunKeepsListings(events);
    var w := After(START, events);
    assert worker in w.workers && ListingSound(w.jobs, id, w.workers[worker].listed[id]);
    AfterNext(events, TryClaim(worker, now, id));
  }

  // ---- Settling --------------------------------------------------------------------------------------------

  /** Over every run: a failed publish is queued again exactly when the failure was retryable and the claims
      won so far are below the bound, with the wait for that many; otherwise it has failed, for good.
      Either way its worker is free. */
  lemma {:induction false} FailureSettles(before: seq<Event>, worker: nat, retryable: bool, at: int, after: seq<Event>)
    requires PhaseOf(After(START, before), worker).Publishing?
    ensures var w := After(START, before);
            var id := PhaseOf(w, worker).id;
            var run := before + [SettleFailure(worker, retryable, at)];
            var settled := After(START, run);
            && id in w.jobs && id in settled.jobs && id in After(START, run + after).jobs
            && PhaseOf(settled, worker) == Idle && TallyOf(before, id).claims > 0
            && if retryable && TallyOf(before, id).claims < w.jobs[id].maxAttempts then
                 && settled.jobs[id].status == Queued
                 && settled.jobs[id].scheduledAt == Some(at + WaitAfter(TallyOf(before, id).claims))
               else
                 settled.jobs[id].status == Failed && After(START, run + after).jobs[id] == settled.jobs[id]
  {
    var w, e := After(START, before), SettleFailure(worker, retryable, at);
    var id := PhaseOf(w, worker).id;
    hide After, Next, TallyOf, Inv, PhaseOf, Backoff, WaitAfter;
    RunKeepsInv(before);
    AfterNext(before, e);
    SettledJob(w, worker, retryable, at);
    AttemptsAreClaims(before, id);
    BackoffIs(w.jobs[id].attempt);
    JobStays(before + [e], after, id);
    if After(START, before + [e]).jobs[id].status == Failed {
      TerminalIsAbsorbing(before + [e], after, id);
    }
  }

  lemma AttemptsAreClaims(events: seq<Event>, id: string)
    requires id in After(START, events).jobs
    ensures After(START, events).jobs[id].attempt == TallyOf(events, id).claims
  {
    Counts(events, id);
  }

  lemma SettledJob(w: World, worker: nat, retryable: bool, at: int)
    requires Inv(w) && PhaseOf(w, worker).Publishing?
    ensures var id, w' := PhaseOf(w, worker).id, Next(w, SettleFailure(worker, retryable, at));
            && id in w.jobs && id in w'.jobs && PhaseOf(w', worker) == Idle && w.jobs[id].attempt > 0
            && w'.jobs[id] == (if retryable && w.jobs[id].attempt < w.jobs[id].maxAttempts
                               then w.jobs[id].(status := Queued, scheduledAt := Some(at + Backoff(w.jobs[id].attempt)),
                                                version := w.jobs[id].version + 1)
                               else w.jobs[id].(status := Failed, version := w.jobs[id].version + 1))
  {
    hide OnePerPair, OneHolder, Backoff;
    assert AttemptsBounded(w.jobs[PhaseOf(w, worker).id]);
  }

  /** Over every run: a publish that went out and is settled has succeeded, for good. */
  lemma {:induction false} SuccessSettles(before: seq<Event>, worker: nat, after: seq<Event>)
    requires PhaseOf(After(START, before), worker).Posted?
    ensures var id := PhaseOf(After(START, before), worker).id;
            var settled := After(START, before + [SettleSuccess(worker)]);
            && id in settled.jobs && settled.jobs[id].status == Succeeded && PhaseOf(settled, worker) == Idle
            && id in After(START, before + [SettleSuccess(worker)] + after).jobs
            && After(START, before + [SettleSuccess(worker)] + after).jobs[id] == settled.jobs[id]
  {
    var w, e := After(START, before), SettleSuccess(worker);
    RunKeepsInv(before);
    AfterNext(before, e);
    assert w.jobs[PhaseOf(w, worker).id].status == Running;
    TerminalIsAbsorbing(before + [e], after, PhaseOf(w, worker).id);
  }

  lemma {:induction false} JobStays(before: seq<Event>, after: seq<Event>, id: string)
    requires id in After(START, before).jobs
    ensures id in After(START, before + after).jobs
  {
    if after == [] {
      assert before + after == before;
    } else {
      var front := after[..|after| - 1];
      JobStays(before, front, id);
      assert before + after == before + front + [after[|after| - 1]];
      AfterNext(before + front, after[|after| - 1]);
      hide After, Next;
      NextKeepsId(After(START, before + front), after[|after| - 1], id);
    }
  }

  lemma NextKeepsId(w: World, e: Event, id: string)
    requires id in w.jobs
    ensures id in Next(w, e).jobs
  {
  }

  // ---- Schedules -------------------------------------------------------------------------------------------

  /** What a worker listed was due then, and is still the row unless the row's version moved on. */
  ghost predicate ListingsSound(w: World) {
    forall worker, id :: worker in w.workers && id in w.workers[worker].listed ==> ListingSound(w.jobs, id, w.workers[worker].listed[id])
  }

  predicate ListingSound(jobs: Jobs, id: string, l: Listing) {
    && Claimable(l.job, l.at) && id in jobs && l.job.version <= jobs[id].version
    && (l.job.version == jobs[id].version ==> jobs[id] == l.job)
  }

  lemma JobsMoveOn(w: World, e: Event, id: string, l: Listing)
    requires Inv(w) && ListingSound(w.jobs, id, l)
    ensures ListingSound(Next(w, e).jobs, id, l)
  {
    hide OnePerPair, AttemptsBounded, OneHolder;
  }

  lemma StepKeepsListings(w: World, e: Event)
    requires Inv(w) && ListingsSound(w)
    ensures ListingsSound(Next(w, e))
  {
    var w' := Next(w, e);
    hide Inv, ListingSound;
    forall worker, id | worker in w'.workers && id in w'.workers[worker].listed
      ensures ListingSound(w'.jobs, id, w'.workers[worker].listed[id])
    {
      if worker in w.workers && id in w.workers[worker].listed && w'.workers[worker].listed[id] == w.workers[worker].listed[id] {
        JobsMoveOn(w, e, id, w.workers[worker].listed[id]);
      } else {
        FreshListing(w.jobs, id, e.now);
      }
    }
  }

  lemma FreshListing(jobs: Jobs, id: string, now: int)
    ensures id in jobs && Claimable(jobs[id], now) ==> ListingSound(jobs, id, Listing(jobs[id], now))
  {
  }

  lemma {:induction false} RunKeepsListings(events: seq<Event>)
    ensures ListingsSound(After(START, events))
  {
    if events != [] {
      RunKeepsListings(events[..|events| - 1]);
      RunKeepsInv(events[..|events| - 1]);
      StepKeepsListings(After(START, events[..|events| - 1]), events[|events| - 1]);
    }
  }

  /** When a worker scans or claims. */
  function TimeOf(e: Event): Option<int> {
    match e
    case Scan(_, now, _) => Some(now)
    case TryClaim(_, now, _) => Some(now)
    case _ => None
  }

  /** The clock does not go back. */
  predicate ClockOrdered(events: seq<Event>) {
    forall i, j :: 0 <= i < j < |events| && TimeOf(events[i]).Some? && TimeOf(events[j]).Some? ==>
      TimeOf(events[i]).value <= TimeOf(events[j]).value
  }

  predicate IsScanAt(events: seq<Event>, i: int, at: int) {
    0 <= i < |events| && events[i].Scan? && events[i].now == at
  }

  /** Whatever is listed was listed by an earlier scan. */
  lemma {:induction false} ListedByScan(events: seq<Event>, worker: nat, id: string)
    requires id in WorkerOf(After(START, events), worker).listed
    ensures exists i :: IsScanAt(events, i, WorkerOf(After(START, events), worker).listed[id].at)
  {
    var n := |events| - 1;
    var w, e := After(START, events[..n]), events[n];
    var l := WorkerOf(Next(w, e), worker).listed[id];
    if id in WorkerOf(w, worker).listed && WorkerOf(w, worker).listed[id] == l {
      ListedByScan(events[..n], worker, id);
      var i :| IsScanAt(events[..n], i, l.at);
      assert IsScanAt(events, i, l.at);
    } else {
      assert IsScanAt(events, n, l.at);
    }
  }

  /** The claim at `k` wins, and its job is not due. */
  ghost predicate EarlyClaim(events: seq<Event>, k: nat)
    requires k < |events|
  {
    var w, e := After(START, events[..k]), events[k];
    e.TryClaim? && WinsClaim(w, e, e.id) && !Claimable(w.jobs[e.id], e.now)
  }

  /** The claim at `k` wins, and its job was requeued after this worker listed it: the version listed is
      not the version claimed. */
  ghost predicate Requeued(events: seq<Event>, k: nat)
    requires k < |events|
  {
    var w, e := After(START, events[..k]), events[k];
    e.TryClaim? && WinsClaim(w, e, e.id) && WorkerOf(w, e.worker).listed[e.id].job.version != w.jobs[e.id].version
  }

  /** Over every run with a clock that does not go back: a claim is early exactly when its job was
      requeued after this worker listed it, to a time that has not come. A claim that checked the
      version it listed would never be early. */
  lemma EarlyClaimIff(events: seq<Event>, k: nat)
    requires ClockOrdered(events) && k < |events| && events[k].TryClaim?
    ensures EarlyClaim(events, k) <==>
              Requeued(events, k) &&
              var job := After(START, events[..k]).jobs[events[k].id];
              job.scheduledAt.Some? && events[k].now < job.scheduledAt.value
  {
    var w, e := After(START, events[..k]), events[k];
    RunKeepsListings(events[..k]);
    if WinsClaim(w, e, e.id) {
      ListedByScan(events[..k], e.worker, e.id);
      var i :| IsScanAt(events[..k], i, WorkerOf(w, e.worker).listed[e.id].at);
      assert events[..k][i] == events[i] && TimeOf(events[i]).Some? && TimeOf(events[k]).Some?;
      assert ListingSound(w.jobs, e.id, WorkerOf(w, e.worker).listed[e.id]);
    }
  }

  function Listed(id: string, job: Job, now: int): seq<Event> {
    [Create(id, job.asset, job.account, None, job.maxAttempts)] + [Scan(0, now, {id})] + [Scan(1, now, {id})]
  }

  /** Two workers list a job; one tries it and reschedules it; the other claims it at once. */
  function Skipping(id: string, job: Job, now: int): seq<Event> {
    Listed(id, job, now) + [TryClaim(0, now, id)] + [SettleFailure(0, true, now)]
  }

  predicate NewJob(job: Job) {
    job.status == Queued && job.scheduledAt == None && job.attempt == 0 && job.version == 1 && job.maxAttempts > 1
  }

  lemma BothListed(id: string, job: Job, now: int)
    requires NewJob(job)
    ensures var w, l := After(START, Listed(id, job, now)), map[id := Listing(job, now)];
            w.jobs == map[id := job] && WorkerOf(w, 0) == Worker(Idle, l) && WorkerOf(w, 1) == Worker(Idle, l)
  {
    var create := Create(id, job.asset, job.account, None, job.maxAttempts);
    AfterOne(START, create);
    AfterNext([create], Scan(0, now, {id}));
    AfterNext([create] + [Scan(0, now, {id})], Scan(1, now, {id}));
    hide After;
    assert Next(START, create) == World(map[id := job], map[]);
  }

  lemma ClaimedThere(w: World, id: string, job: Job, now: int)
    requires NewJob(job) && w.jobs == map[id := job] && WorkerOf(w, 0) == Worker(Idle, map[id := Listing(job, now)])
    ensures var w', claimed := Next(w, TryClaim(0, now, id)), job.(status := Running, attempt := 1, version := 2);
            && w'.jobs == map[id := claimed] && PhaseOf(w', 0) == Publishing(id, claimed) && WorkerOf(w', 1) == WorkerOf(w, 1)
  {
  }

  lemma RequeuedThere(w: World, id: string, job: Job, now: int)
    requires w.jobs == map[id := job] && PhaseOf(w, 0) == Publishing(id, job)
    requires job.status == Running && job.attempt == 1 < job.maxAttempts
    ensures var w' := Next(w, SettleFailure(0, true, now));
            && w'.jobs == map[id := job.(status := Queued, scheduledAt := Some(now + 30 * SECOND), version := job.version + 1)]
            && WorkerOf(w', 1) == WorkerOf(w, 1)
  {
  }

  lemma Rescheduled(id: string, job: Job, now: int)
    requires NewJob(job)
    ensures var w := After(START, Skipping(id, job, now));
            && w.jobs == map[id := job.(scheduledAt := Some(now + 30 * SECOND), attempt := 1, version := 3)]
            && WorkerOf(w, 1) == Worker(Idle, map[id := Listing(job, now)])
  {
    BothListed(id, job, now);
    var listed := Listed(id, job, now);
    hide After, Listed, Next, WorkerOf, PhaseOf;
    AfterNext(listed, TryClaim(0, now, id));
    AfterNext(listed + [TryClaim(0, now, id)], SettleFailure(0, true, now));
    ClaimedThere(After(START, listed), id, job, now);
    RequeuedThere(After(START, listed + [TryClaim(0, now, id)]), id, job.(status := Running, attempt := 1, version := 2), now);
  }

  /** The condition is met, whatever the job: the retry does not wait for its time. */
  lemma BackoffCanBeSkipped(id: string, job: Job, now: int)
    requires NewJob(job)
    ensures var run := Skipping(id, job, now) + [TryClaim(1, now, id)];
            ClockOrdered(run) && EarlyClaim(run, |run| - 1) && Requeued(run, |run| - 1)
  {
    Rescheduled(id, job, now);
    var before := Skipping(id, job, now);
    var run := before + [TryClaim(1, now, id)];
    assert forall i :: 0 <= i < |run| && TimeOf(run[i]).Some? ==> TimeOf(run[i]).value == now;
    hide After, Skipping;
    assert run[..|run| - 1] == before;
  }
}
