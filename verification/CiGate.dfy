/** The CI gate: which stages run, when it stops, the guard that restores the database, and the exit
    code. What commands, checks and the database answer is given from outside. */
module CiGate {
  import opened Common

  // ---- Selecting stages ------------------------------------------------------------------------------------

  /** One part of a `--stages` argument. */
  datatype Chunk = Range(lo: nat, hi: nat) | One(n: nat) | Invalid

  predicate Names(c: Chunk, n: nat) {
    match c
    case Range(lo, hi) => lo <= n <= hi
    case One(m) => n == m
    case Invalid => false
  }

  lemma NamedIff(chunks: seq<Chunk>, n: nat)
    ensures (exists c :: c in chunks && Names(c, n)) <==>
              One(n) in chunks || exists lo: nat, hi: nat :: Range(lo, hi) in chunks && lo <= n <= hi
  {
    if c :| c in chunks && Names(c, n) {
      assert c == if c.One? then One(n) else Range(c.lo, c.hi);
    }
    if lo: nat, hi: nat :| Range(lo, hi) in chunks && lo <= n <= hi {
      assert Names(Range(lo, hi), n);
    }
    assert Names(One(n), n);
  }

  /** None is the exit with "invalid stage selector"; no chunks is no argument. */
  method ParseStageRange(chunks: seq<Chunk>, valid: set<nat>) returns (selected: Option<set<nat>>)
    ensures selected.None? <==> Invalid in chunks
    ensures selected.Some? ==>
              forall n :: n in selected.value <==>
                n in valid && (chunks == [] || One(n) in chunks || exists lo: nat, hi: nat :: Range(lo, hi) in chunks && lo <= n <= hi)
  {
    if chunks == [] {
      return Some(valid);
    }
    var picked: set<nat> := {};
    for i := 0 to |chunks|
      invariant Invalid !in chunks[..i]
      invariant forall n :: n in picked <==> exists c :: c in chunks[..i] && Names(c, n)
    {
      ghost var before := picked;
      match chunks[i] {
        case Range(lo, hi) => picked := picked + set n: nat | lo <= n <= hi && Names(chunks[i], n);
        case One(n) => picked := picked + {n};
        case Invalid => return None;
      }
      assert chunks[..i + 1] == chunks[..i] + [chunks[i]];
      assert forall c :: c in chunks[..i + 1] <==> c in chunks[..i] || c == chunks[i];
      forall n ensures n in picked <==> exists c :: c in chunks[..i + 1] && Names(c, n) {
        assert n in picked <==> n in before || Names(chunks[i], n);
        assert Names(chunks[i], n) ==> chunks[i] in chunks[..i + 1];
      }
    }
    assert chunks[..|chunks|] == chunks;
    selected := Some(picked * valid);
    forall n: nat ensures (exists c :: c in chunks && Names(c, n)) <==>
                            One(n) in chunks || exists lo: nat, hi: nat :: Range(lo, hi) in chunks && lo <= n <= hi {
      NamedIff(chunks, n);
    }
  }

  // ---- Restoring the database ------------------------------------------------------------------------------

  /** What `alembic heads` and `alembic current` printed; a command that failed printed nothing. */
  datatype Reading = Reading(heads: set<string>, current: set<string>)

  predicate AtHead(r: Reading) {
    r.heads != {} && r.current == r.heads
  }

  datatype Try = Try(upgraded: bool, reading: Reading)

  const RESTORE_RETRIES := 8

  predicate Restores(t: Try) {
    t.upgraded && AtHead(t.reading)
  }

  /** What one restoration meets: its upgrades, in order, and the check after the last of them. */
  datatype Restoration = Restoration(tries: seq<Try>, last: Reading)
  {
    ghost predicate Valid() {
      |tries| == RESTORE_RETRIES
    }
  }

  /** `upgrades` is how many upgrades were run, and `seen` the last reading taken. */
  method EnsureDbAtHead(r: Restoration) returns (ok: bool, upgrades: nat, seen: Reading)
    requires r.Valid()
    ensures ok <==> seen.heads != {} && seen.current == seen.heads
    ensures ok <==> (exists i :: 0 <= i < RESTORE_RETRIES && Restores(r.tries[i])) || AtHead(r.last)
    ensures 0 < upgrades <= RESTORE_RETRIES && forall i :: 0 <= i < upgrades - 1 ==> !Restores(r.tries[i])
    ensures if Restores(r.tries[upgrades - 1]) then seen == r.tries[upgrades - 1].reading
            else upgrades == RESTORE_RETRIES && seen == r.last
  {
    for attempt := 0 to RESTORE_RETRIES
      invariant forall i :: 0 <= i < attempt ==> !Restores(r.tries[i])
    {
      if r.tries[attempt].upgraded {
        if AtHead(r.tries[attempt].reading) {
          return true, attempt + 1, r.tries[attempt].reading;
        }
      }
    }
    ok, upgrades, seen := AtHead(r.last), RESTORE_RETRIES, r.last;
  }

  // ---- The driver ------------------------------------------------------------------------------------------

  /** What a stage's command does to the schema of the database. */
  datatype Migration = NoMigration | Upgrade | Downgrade

  datatype Stage = Stage(number: nat, requiresDb: bool, hasCommand: bool, hasCheck: bool, migration: Migration)

  /** The stages of the gate, in order. */
  const STAGES: seq<Stage> := [
    Stage(0, false, true, false, NoMigration),
    Stage(1, false, true, false, NoMigration),
    Stage(2, false, true, false, NoMigration),
    Stage(3, false, false, true, NoMigration),
    Stage(4, false, true, false, NoMigration),
    Stage(5, true, true, false, Upgrade),
    Stage(6, true, true, false, Downgrade),
    Stage(7, true, true, false, Upgrade),
    Stage(8, true, true, false, NoMigration),
    Stage(9, true, true, true, NoMigration),
    Stage(10, false, false, true, NoMigration),
    Stage(11, true, true, false, NoMigration),
    Stage(12, true, true, false, NoMigration),
    Stage(13, true, true, false, NoMigration),
    Stage(14, true, true, false, NoMigration),
    Stage(15, true, true, false, NoMigration),
    Stage(16, true, true, false, NoMigration),
    Stage(17, true, true, false, NoMigration),
    Stage(18, true, true, false, NoMigration),
    Stage(19, true, true, false, NoMigration),
    Stage(20, true, true, false, NoMigration),
    Stage(21, true, true, false, NoMigration),
    Stage(22, true, true, false, NoMigration),
    Stage(23, true, true, false, NoMigration),
    Stage(24, true, true, false, NoMigration),
    Stage(25, true, true, false, NoMigration),
    Stage(26, true, true, false, NoMigration),
    Stage(27, true, true, false, NoMigration)
  ]

  /** The command's and the check's result, or an exception or Ctrl-C in the middle of the stage. */
  datatype Answer = Ends(command: bool, check: bool) | Interrupts

  datatype Database = Absent | Ephemeral | Persistent

  datatype StageResult = StageResult(number: nat, passed: bool, skipped: bool)

  predicate Skips(s: Stage, db: Database) {
    s.requiresDb && db.Absent?
  }

  /** A stage with a check runs its command first, if it has one, and the check only if that passed. */
  predicate Passes(s: Stage, a: Answer) {
    a.Ends? && if s.hasCheck then (s.hasCommand ==> a.command) && a.check else a.command
  }

  predicate Fine(s: Stage, db: Database, a: Answer) {
    Skips(s, db) || Passes(s, a)
  }

  function ResultOf(s: Stage, db: Database, a: Answer): StageResult {
    StageResult(s.number, Fine(s, db, a), Skips(s, db))
  }

  function Chosen(stages: seq<Stage>, selected: set<nat>): seq<Stage> {
    if stages == [] then []
    else
      var s := stages[|stages| - 1];
      Chosen(stages[..|stages| - 1], selected) + if s.number in selected then [s] else []
  }

  type Answers = nat -> Answer

  function ResultsOf(stages: seq<Stage>, db: Database, answers: Answers): seq<StageResult> {
    seq(|stages|, i requires 0 <= i < |stages| => ResultOf(stages[i], db, answers(stages[i].number)))
  }

  /** How a run of stages ended: all done, at a stage that failed, or interrupted. */
  datatype Stop = Completed | FailedFast | Interrupted

  /** The chosen stages up to where the run stopped: all fine before the last, and the last not if the
      run stopped early. */
  ghost predicate StopsAt(chosen: seq<Stage>, db: Database, answers: Answers, n: nat, stop: Stop) {
    && n <= |chosen|
    && (forall i :: 0 <= i < n ==> Fine(chosen[i], db, answers(chosen[i].number)))
    && match stop
       case Completed => n == |chosen|
       case FailedFast =>
         n < |chosen| && !Fine(chosen[n], db, answers(chosen[n].number)) && answers(chosen[n].number).Ends?
       case Interrupted => n < |chosen| && !Skips(chosen[n], db) && answers(chosen[n].number).Interrupts?
  }

  lemma {:induction false} ChosenNext(stages: seq<Stage>, selected: set<nat>, i: nat)
    requires i < |stages|
    ensures Chosen(stages[..i + 1], selected) == Chosen(stages[..i], selected) + if stages[i].number in selected then [stages[i]] else []
  {
    assert stages[..i + 1][..i] == stages[..i];
  }

  lemma {:induction false} ChosenPrefix(stages: seq<Stage>, selected: set<nat>, i: nat)
    requires i <= |stages|
    ensures Chosen(stages[..i], selected) <= Chosen(stages, selected)
  {
    if i == |stages| {
      assert stages[..i] == stages;
    } else {
      ChosenPrefix(stages[..|stages| - 1], selected, i);
      assert stages[..|stages| - 1][..i] == stages[..i];
    }
  }

  lemma {:induction false} ChosenNone(stages: seq<Stage>, selected: set<nat>)
    ensures Chosen(stages[..0], selected) == []
  {
  }

  method RunStage(s: Stage, a: Answer) returns (ok: bool)
    requires a.Ends?
    ensures ok == Passes(s, a)
    ensures ok <==> (s.hasCommand || !s.hasCheck ==> a.command) && (s.hasCheck ==> a.check)
  {
    ok := true;
    if s.hasCheck {
      if s.hasCommand {
        ok := a.command;
      }
      if ok {
        ok := a.check;
      }
    } else {
      ok := a.command;
    }
  }

  /** How many stages were fine before the run stopped. */
  function FineCount(results: seq<StageResult>, stop: Stop): nat {
    if stop.FailedFast? && results != [] then |results| - 1 else |results|
  }

  /** The loop of `main`: the results are those of the chosen stages up to where the run stops, the one
      that failed among them. */
  method RunStages(stages: seq<Stage>, selected: set<nat>, db: Database, answers: Answers)
    returns (results: seq<StageResult>, stop: Stop)
    ensures StopsAt(Chosen(stages, selected), db, answers, FineCount(results, stop), stop)
    ensures |results| <= |Chosen(stages, selected)|
    ensures results == ResultsOf(Chosen(stages, selected)[..|results|], db, answers)
    ensures stop.FailedFast? ==> results != []
  {
    hide Passes, Chosen;
    results := [];
    ChosenNone(stages, selected);
    for i := 0 to |stages|
      invariant var so := Chosen(stages[..i], selected);
                && |results| == |so| && results == ResultsOf(so, db, answers)
                && forall j :: 0 <= j < |so| ==> Fine(so[j], db, answers(so[j].number))
    {
      var s := stages[i];
      ChosenNext(stages, selected, i);
      ChosenPrefix(stages, selected, i + 1);
      ghost var so, all := Chosen(stages[..i], selected), Chosen(stages, selected);
      if s.number !in selected {
        continue;
      }
      ghost var n := |so|;
      assert so + [s] <= all && all[..n] == so && all[n] == s && all[..n + 1] == so + [s];
      var skipped := Skips(s, db);
      var ok := true;
      if !skipped {
        var a := answers(s.number);
        if a.Interrupts? {
          return results, Interrupted;
        }
        ok := RunStage(s, a);
      }
      assert ResultsOf(so + [s], db, answers) == ResultsOf(so, db, answers) + [ResultOf(s, db, answers(s.number))];
      results := results + [StageResult(s.number, ok, skipped)];
      if !skipped && !ok {
        return results, FailedFast;
      }
    }
    assert stages[..|stages|] == stages;
    assert Chosen(stages, selected)[..|results|] == Chosen(stages, selected);
    stop := Completed;
  }

  /** The guard runs when a downgrade may have run against a database that stays. */
  predicate Guarded(selected: set<nat>, db: Database) {
    db.Persistent? && 6 in selected
  }

  /** Of the gate's own stages exactly those that are selected and downgrade call for it: a database that
      stays is never left downgraded unguarded, and never guarded without need. */
  lemma DowngradeIsGuarded(selected: set<nat>, db: Database)
    ensures Guarded(selected, db) <==>
              db == Persistent && exists s :: s in STAGES && s.number in selected && s.migration == Downgrade
    ensures forall s :: s in STAGES && s.migration != NoMigration ==> s.requiresDb
  {
    assert STAGES[6] == Stage(6, true, true, false, Downgrade);
    forall s | s in STAGES ensures (s.migration == Downgrade <==> s.number == 6) && (s.migration != NoMigration ==> s.requiresDb) {
    }
  }

  lemma {:induction false} ChosenIff(stages: seq<Stage>, selected: set<nat>, s: Stage)
    ensures s in Chosen(stages, selected) <==> s in stages && s.number in selected
  {
    if stages != [] {
      ChosenIff(stages[..|stages| - 1], selected, s);
      assert stages == stages[..|stages| - 1] + [stages[|stages| - 1]];
    }
  }

  /** A stage does no harm to the verdict: it needs a database and there is none, or what it has passed. */
  predicate SkippedOrPassed(s: Stage, db: Database, a: Answer) {
    || (s.requiresDb && db == Absent)
    || (a.Ends? && (s.hasCommand || !s.hasCheck ==> a.command) && (s.hasCheck ==> a.check))
  }

  lemma AllFineIff(stages: seq<Stage>, selected: set<nat>, db: Database, answers: Answers)
    ensures (forall s :: s in Chosen(stages, selected) ==> Fine(s, db, answers(s.number))) <==>
              forall s :: s in stages && s.number in selected ==> SkippedOrPassed(s, db, answers(s.number))
  {
    forall s ensures s in Chosen(stages, selected) <==> s in stages && s.number in selected {
      ChosenIff(stages, selected, s);
    }
    assert forall s, a :: Fine(s, db, a) <==> SkippedOrPassed(s, db, a);
  }

  /** The gate. `code` is None when the interruption goes on past it; `seen` is the last reading of the
      restoration guard, taken on every way out, or None when the guard does not run.
      The exit code is 0 exactly when every selected stage was skipped or passed and, if the guard
      ran, the last thing it saw was the database at its heads. */
  method RunGate(stages: seq<Stage>, selected: set<nat>, db: Database, answers: Answers, r: Restoration)
    returns (code: Option<nat>, results: seq<StageResult>, seen: Option<Reading>)
    requires r.Valid()
    ensures seen.Some? <==> Guarded(selected, db)
    ensures code == Some(0) <==>
              && (forall s :: s in stages && s.number in selected ==> SkippedOrPassed(s, db, answers(s.number)))
              && (seen.Some? ==> seen.value.heads != {} && seen.value.current == seen.value.heads)
    ensures code == Some(0) ==>
              && results == ResultsOf(Chosen(stages, selected), db, answers)
              && (Guarded(selected, db) ==>
                    (exists i :: 0 <= i < RESTORE_RETRIES && Restores(r.tries[i])) || AtHead(r.last))
    ensures code.None? || code.value <= 1
    ensures exists stop ::
              && StopsAt(Chosen(stages, selected), db, answers, FineCount(results, stop), stop)
              && (code.None? <==> stop.Interrupted?)
    ensures |results| <= |Chosen(stages, selected)|
    ensures results == ResultsOf(Chosen(stages, selected)[..|results|], db, answers)
  {
    var stop;
    results, stop := RunStages(stages, selected, db, answers);
    ghost var n := FineCount(results, stop);
    ghost var chosen := Chosen(stages, selected);
    var restored: Option<bool> := None;
    seen := None;
    if db.Persistent? && 6 in selected {
      var ok, _, last := EnsureDbAtHead(r);
      restored, seen := Some(ok), Some(last);
    }
    AllFineIff(stages, selected, db, answers);
    if stop.Interrupted? {
      assert chosen[n] in chosen;
      return None, results, seen;
    }
    var overall := true;
    for i := 0 to |results|
      invariant overall <==> forall j :: 0 <= j < i ==> results[j].skipped || results[j].passed
    {
      if !results[i].skipped && !results[i].passed {
        overall := false;
      }
    }
    SummaryIff(chosen, db, answers, results, stop);
    if restored == Some(false) {
      overall := false;
    }
    code := Some(if overall then 0 else 1);
  }

  /** The summary finds a failure exactly when some selected stage is not fine, run or not. */
  lemma SummaryIff(chosen: seq<Stage>, db: Database, answers: Answers, results: seq<StageResult>, stop: Stop)
    requires |results| <= |chosen| && results == ResultsOf(chosen[..|results|], db, answers)
    requires StopsAt(chosen, db, answers, FineCount(results, stop), stop) && !stop.Interrupted?
    requires stop.FailedFast? ==> results != []
    ensures (forall j :: 0 <= j < |results| ==> results[j].skipped || results[j].passed)
       <==> forall s :: s in chosen ==> Fine(s, db, answers(s.number))
    ensures stop.Completed? ==> chosen[..|results|] == chosen
  {
    var n := FineCount(results, stop);
    if stop.FailedFast? {
      assert !results[n].skipped && !results[n].passed;
      assert chosen[n] in chosen;
    }
  }
}
