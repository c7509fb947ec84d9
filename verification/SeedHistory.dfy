/** Whole runs of the seeder: the digest shortcut, transactions, and the revision count. */
module SeedHistory {
  import opened Common
  import opened SeedPlan
  import opened SeedApply
  import opened SeedCatalogue
  import opened SeedConstraints
  import opened SeedCollisions
  import Manifest
  import SeedDesired

  datatype Meta = Meta(digest: string, revision: nat)

  /** The catalogue tables and the one row of `provider_registry_meta`. */
  datatype SeedState = SeedState(tables: Tables, meta: Option<Meta>)
  {
    function Digest(): Option<string> {
      if meta.Some? then Some(meta.value.digest) else None
    }

    function Revision(): nat {
      if meta.Some? then meta.value.revision else 0
    }
  }

  datatype Call = Call(digest: string, force: bool, dryRun: bool)

  /** The desired catalogue each digest stands for: the digest is taken of the manifests, and the
      desired rows are built from nothing else. */
  type Manifests = string -> Snapshot

  predicate Skips(s: SeedState, call: Call) {
    s.Digest() == Some(call.digest) && !call.force
  }

  function Attempt(specs: seq<TableSpec>, store: Storage, s: SeedState, desired: Snapshot, current: Snapshot): Result {
    Run(store, s.tables, StatementsFor(specs, desired, current))
  }

  /** One call of the seeder as a transaction: a statement that fails undoes it all. */
  function AfterCall(specs: seq<TableSpec>, store: Storage, s: SeedState, call: Call, desired: Snapshot, current: Snapshot): SeedState {
    if Skips(s, call) || call.dryRun then s
    else
      match Attempt(specs, store, s, desired, current)
      case Failed(_) => s
      case Done(tables) => SeedState(tables, Some(Meta(call.digest, s.Revision() + 1)))
  }

  predicate Applied(specs: seq<TableSpec>, store: Storage, s: SeedState, call: Call, desired: Snapshot, current: Snapshot) {
    !Skips(s, call) && !call.dryRun && Attempt(specs, store, s, desired, current).Done?
  }

  // ---- The code, statement by statement ---------------------------------------------------------------

  function AllStatements(plans: seq<TablePlan>): seq<Statement> {
    if plans == [] then []
    else AllStatements(plans[..|plans| - 1]) + TableStatements(plans[|plans| - 1])
  }

  function PlansFor(specs: seq<TableSpec>, desired: Snapshot, current: Snapshot): seq<TablePlan> {
    seq(|specs|, i requires 0 <= i < |specs| => PlanOf(specs[i], desired, current))
  }

  lemma {:induction false} PlansSpell(specs: seq<TableSpec>, desired: Snapshot, current: Snapshot)
    ensures AllStatements(PlansFor(specs, desired, current)) == StatementsFor(specs, desired, current)
  {
    hide PlanOf, TableStatements;
    if specs != [] {
      var front := specs[..|specs| - 1];
      PlansSpell(front, desired, current);
      assert PlansFor(specs, desired, current)[..|specs| - 1] == PlansFor(front, desired, current);
    }
  }

  /** A plan is what `plan_and_apply` returns: whether the digest changed, the revision it stands
      for, and the tables' plans. */
  datatype Plan = Plan(digest: string, changed: bool, revision: nat, tables: seq<TablePlan>)

  method BuildPlan(specs: seq<TableSpec>, desired: Snapshot, current: Snapshot, digest: string, stored: Option<string>)
    returns (plan: Plan)
    requires forall i :: 0 <= i < |specs| ==> RowsOf(desired, specs[i].name).Valid() && RowsOf(current, specs[i].name).Valid()
    ensures plan == Plan(digest, stored != Some(digest), 0, PlansFor(specs, desired, current))
  {
    hide PlanFor;
    var tables := [];
    for i := 0 to |specs|
      invariant tables == PlansFor(specs, desired, current)[..i]
    {
      var table := BuildTablePlan(specs[i], RowsOf(desired, specs[i].name), RowsOf(current, specs[i].name));
      tables := tables + [table];
    }
    plan := Plan(digest, stored != Some(digest), 0, tables);
  }

  class Database {
    var tables: Tables
    var meta: Option<Meta>
    const store: Storage

    constructor (store: Storage, tables: Tables, meta: Option<Meta>)
      ensures this.store == store && State() == SeedState(tables, meta)
    {
      this.store, this.tables, this.meta := store, tables, meta;
    }

    function State(): SeedState
      reads this
    {
      SeedState(tables, meta)
    }

    /** `conn.execute`: a statement that breaks a constraint raises and changes nothing. */
    method Execute(s: Statement) returns (ok: bool)
      modifies this`tables
      ensures ok == Exec(store, old(tables), s).Done?
      ensures tables == if ok then Exec(store, old(tables), s).tables else old(tables)
    {
      var r := Exec(store, tables, s);
      ok := r.Done?;
      if r.Done? {
        tables := r.tables;
      }
    }

    method ExecuteAll(stmts: seq<Statement>) returns (ok: bool)
      modifies this`tables
      ensures ok == Run(store, old(tables), stmts).Done?
      ensures ok ==> tables == Run(store, old(tables), stmts).tables
    {
      for i := 0 to |stmts|
        invariant Run(store, old(tables), stmts[..i]) == Done(tables)
      {
        assert stmts[..i + 1] == stmts[..i] + [stmts[i]];
        RunLast(store, old(tables), stmts[..i], stmts[i]);
        RunAppend(store, old(tables), stmts[..i + 1], stmts[i + 1..]);
        assert stmts == stmts[..i + 1] + stmts[i + 1..];
        ok := Execute(stmts[i]);
        if !ok {
          return;
        }
      }
      assert stmts[..|stmts|] == stmts;
      ok := true;
    }

    /** The loops of `apply_plan`: creates and updates, then disables, then deletes, per table. */
    method ApplyTable(plan: TablePlan) returns (ok: bool)
      modifies this`tables
      ensures ok == Run(store, old(tables), TableStatements(plan)).Done?
      ensures ok ==> tables == Run(store, old(tables), TableStatements(plan)).tables
    {
      var upserts := Upserts(plan.spec, plan.rows, plan.creates + plan.updates);
      var disables, deletes := Disables(plan.spec, plan.disables), Deletes(plan.spec, plan.deletes);
      RunAppend(store, tables, upserts, disables + deletes);
      ok := ExecuteAll(upserts);
      if ok {
        RunAppend(store, tables, disables, deletes);
        ok := ExecuteAll(disables);
        if ok {
          ok := ExecuteAll(deletes);
        }
      }
    }

    method ApplyPlan(plan: Plan, revision: nat) returns (ok: bool)
      modifies this
      ensures ok == Run(store, old(tables), AllStatements(plan.tables)).Done?
      ensures ok ==> State() == SeedState(Run(store, old(tables), AllStatements(plan.tables)).tables,
                                          Some(Meta(plan.digest, revision)))
    {
      for i := 0 to |plan.tables|
        invariant Run(store, old(tables), AllStatements(plan.tables[..i])) == Done(tables)
      {
        RunTables(store, old(tables), plan.tables, i);
        ok := ApplyTable(plan.tables[i]);
        if !ok {
          return;
        }
      }
      assert plan.tables[..|plan.tables|] == plan.tables;
      meta := Some(Meta(plan.digest, revision));
      ok := true;
    }

    /** `snapshot`: every table, its rows in whatever order they come. */
    method ReadSnapshot(specs: seq<TableSpec>) returns (current: Snapshot)
      requires forall i :: 0 <= i < |specs| ==> specs[i].name in tables
      ensures Reads(specs, current, tables)
    {
      current := map[];
      for i := 0 to |specs|
        invariant forall j :: 0 <= j < i ==> specs[j].name in current
        invariant forall name :: name in current ==> name in tables && current[name].Valid() && current[name].at == tables[name]
      {
        var rows := ReadTable(tables[specs[i].name]);
        current := current[specs[i].name := rows];
      }
    }

    /** `plan_and_apply` inside its transaction. `current` is what was read, if anything was. */
    method PlanAndApply(specs: seq<TableSpec>, desired: Snapshot, call: Call)
      returns (ok: bool, plan: Plan, ghost current: Snapshot)
      requires forall i :: 0 <= i < |specs| ==> RowsOf(desired, specs[i].name).Valid() && specs[i].name in tables
      modifies this
      ensures Reads(specs, current, old(tables))
      ensures State() == AfterCall(specs, store, old(State()), call, desired, current)
      ensures plan.digest == call.digest && (plan.changed <==> old(State()).Digest() != Some(call.digest))
      ensures !call.force && !plan.changed ==> ok && plan.tables == [] && plan.revision == old(State()).Revision()
      ensures call.force || plan.changed ==>
                && plan.tables == PlansFor(specs, desired, current) && plan.revision == old(State()).Revision() + 1
                && (ok <==> call.dryRun || Run(store, old(tables), StatementsFor(specs, desired, current)).Done?)
    {
      hide Run, StatementsFor, AllStatements, PlansFor;
      var before, stored, revision := State(), State().Digest(), State().Revision();
      if stored == Some(call.digest) && !call.force {
        current := ReadOf(specs, tables);
        return true, Plan(call.digest, false, revision, []), current;
      }
      var found := ReadSnapshot(specs);
      current := found;
      plan := BuildPlan(specs, desired, found, call.digest, stored);
      plan := plan.(revision := revision + 1);
      PlansSpell(specs, desired, found);
      ok := true;
      if !call.dryRun {
        ok := ApplyPlan(plan, plan.revision);
        if !ok {
          tables, meta := before.tables, before.meta;
        }
      }
    }
  }

  method ReadTable(rows: Table) returns (r: Rows)
    ensures r.Valid() && r.at == rows
  {
    var order, left := [], rows.Keys;
    while left != {}
      invariant left <= rows.Keys && Distinct(order)
      invariant forall k :: k in order <==> k in rows && k !in left
      decreases |left|
    {
      var k :| k in left;
      order, left := order + [k], left - {k};
    }
    r := Rows(order, rows);
  }

  lemma RunTables(store: Storage, db: Tables, plans: seq<TablePlan>, i: nat)
    requires i < |plans| && Run(store, db, AllStatements(plans[..i])).Done?
    ensures var so := Run(store, db, AllStatements(plans[..i])).tables;
            && Run(store, db, AllStatements(plans[..i + 1])) == Run(store, so, TableStatements(plans[i]))
            && (Run(store, so, TableStatements(plans[i])).Failed? ==> Run(store, db, AllStatements(plans)).Failed?)
  {
    assert plans[..i + 1][..i] == plans[..i];
    RunAppend(store, db, AllStatements(plans[..i]), TableStatements(plans[i]));
    if Run(store, db, AllStatements(plans[..i + 1])).Failed? {
      FailureStays(store, db, plans, i + 1);
    }
  }

  lemma {:induction false} FailureStays(store: Storage, db: Tables, plans: seq<TablePlan>, n: nat)
    requires n <= |plans| && Run(store, db, AllStatements(plans[..n])).Failed?
    ensures Run(store, db, AllStatements(plans)).Failed?
  {
    if n == |plans| {
      assert plans[..n] == plans;
    } else {
      var front := plans[..|plans| - 1];
      assert front[..n] == plans[..n];
      FailureStays(store, db, front, n);
      RunAppend(store, db, AllStatements(front), TableStatements(plans[|plans| - 1]));
    }
  }

  // ---- Runs ----------------------------------------------------------------------------------------------

  /** A catalogue that validation let through, over storage that keeps canonical values. */
  ghost predicate GoodDesired(specs: seq<TableSpec>, store: Storage, desired: Snapshot) {
    && ValidDesired(specs, desired) && ClosedDesired(specs, desired)
    && FaithfulStorage(specs, store, desired) && UniqueDesired(specs, desired)
  }

  /** The seeder's invariant: the tables are settled for the digest on record. */
  ghost predicate Honest(specs: seq<TableSpec>, store: Storage, manifests: Manifests, s: SeedState) {
    && GoodSchema(specs) && KeyedDatabase(specs, s.tables) && ForeignKeysHold(s.tables)
    && (s.meta.Some? ==>
          GoodDesired(specs, store, manifests(s.meta.value.digest))
          && CatalogueSettled(specs, manifests(s.meta.value.digest), s.tables))
  }

  ghost predicate Step(specs: seq<TableSpec>, store: Storage, manifests: Manifests, s: SeedState, call: Call, t: SeedState) {
    && GoodDesired(specs, store, manifests(call.digest))
    && exists current :: Reads(specs, current, s.tables) && t == AfterCall(specs, store, s, call, manifests(call.digest), current)
  }

  ghost predicate Trace(specs: seq<TableSpec>, store: Storage, manifests: Manifests, states: seq<SeedState>, calls: seq<Call>) {
    && |states| == |calls| + 1
    && forall i :: 0 <= i < |calls| ==> Step(specs, store, manifests, states[i], calls[i], states[i + 1])
  }

  lemma SettingOf(specs: seq<TableSpec>, store: Storage, manifests: Manifests, s: SeedState, desired: Snapshot, current: Snapshot)
    requires Honest(specs, store, manifests, s) && GoodDesired(specs, store, desired) && Reads(specs, current, s.tables)
    ensures SeedSetting(specs, store, desired, current, s.tables) && UniqueDesired(specs, desired)
  {
  }

  /** What an applied seed leaves, whatever order the snapshot was read in. */
  lemma {:induction false} AttemptLeaves(specs: seq<TableSpec>, store: Storage, desired: Snapshot, current: Snapshot, db: Tables)
    requires SeedSetting(specs, store, desired, current, db)
    requires Run(store, db, StatementsFor(specs, desired, current)).Done?
    ensures var after := AfterSeed(specs, store, desired, db);
            && Run(store, db, StatementsFor(specs, desired, current)) == Done(after)
            && CatalogueSettled(specs, desired, after) && KeyedDatabase(specs, after) && ForeignKeysHold(after)
  {
    var stmts := StatementsFor(specs, desired, current);
    SettingRuns(specs, store, desired, current, db);
    ForeignKeysAlwaysHold(specs, store, desired, current, db, |stmts|);
    assert stmts[..|stmts|] == stmts;
    var after := AfterSeed(specs, store, desired, db);
    TablesRemain(specs, store, desired, db);
    SeedConverges(specs, store, desired, db, ReadOf(specs, after));
  }

  /** Some read of a database: every table in some order. */
  ghost function ReadOf(specs: seq<TableSpec>, db: Tables): (s: Snapshot)
    requires forall i :: 0 <= i < |specs| ==> specs[i].name in db
    ensures Reads(specs, s, db)
  {
    map name | name in db :: Rows(Listing(db[name].Keys), db[name])
  }

  ghost function Listing(keys: set<Key>): (order: seq<Key>)
    ensures Distinct(order) && forall k :: k in order <==> k in keys
  {
    if keys == {} then []
    else
      var k :| k in keys;
      Listing(keys - {k}) + [k]
  }

  lemma {:induction false} TablesRemain(specs: seq<TableSpec>, store: Storage, desired: Snapshot, db: Tables)
    requires DistinctNames(specs)
    ensures forall i :: 0 <= i < |specs| ==> specs[i].name in AfterSeed(specs, store, desired, db)
  {
    forall i | 0 <= i < |specs| ensures specs[i].name in AfterSeed(specs, store, desired, db) {
      AfterSeedTable(specs, store, desired, db, i);
    }
  }

  lemma StepKeepsHonest(specs: seq<TableSpec>, store: Storage, manifests: Manifests, s: SeedState, call: Call, t: SeedState)
    requires Honest(specs, store, manifests, s) && Step(specs, store, manifests, s, call, t)
    ensures Honest(specs, store, manifests, t)
  {
    var desired := manifests(call.digest);
    var current :| Reads(specs, current, s.tables) && t == AfterCall(specs, store, s, call, desired, current);
    SettingOf(specs, store, manifests, s, desired, current);
    if Applied(specs, store, s, call, desired, current) {
      AttemptLeaves(specs, store, desired, current, s.tables);
    }
  }

  lemma {:induction false} TraceKeepsHonest(specs: seq<TableSpec>, store: Storage, manifests: Manifests,
                                            states: seq<SeedState>, calls: seq<Call>, n: nat)
    requires Trace(specs, store, manifests, states, calls) && n < |states|
    requires Honest(specs, store, manifests, states[0])
    ensures Honest(specs, store, manifests, states[n])
  {
    if n > 0 {
      assert Step(specs, store, manifests, states[n - 1], calls[n - 1], states[n]);
      hide Step, Honest, Trace;
      TraceKeepsHonest(specs, store, manifests, states, calls, n - 1);
      StepKeepsHonest(specs, store, manifests, states[n - 1], calls[n - 1], states[n]);
    }
  }

  /** Soundness of the shortcut: at every point of every run, if the digest on record is the one
      asked for, then a full diff against any read of the tables would write nothing. */
  lemma {:induction false} ShortcutIsSound(specs: seq<TableSpec>, store: Storage, manifests: Manifests,
                        states: seq<SeedState>, calls: seq<Call>, n: nat, current: Snapshot)
    requires Trace(specs, store, manifests, states, calls) && n < |calls|
    requires Honest(specs, store, manifests, states[0])
    requires states[n].Digest() == Some(calls[n].digest) && Reads(specs, current, states[n].tables)
    ensures TotalWrites(specs, manifests(calls[n].digest), current) == 0
    ensures StatementsFor(specs, manifests(calls[n].digest), current) == []
  {
    TraceKeepsHonest(specs, store, manifests, states, calls, n);
    var desired := manifests(calls[n].digest);
    NoWritesIffSettled(specs, desired, current, states[n].tables);
    NoWritesNoStatements(specs, desired, current);
  }

  lemma {:induction false} NoWritesNoStatements(specs: seq<TableSpec>, desired: Snapshot, current: Snapshot)
    ensures |StatementsFor(specs, desired, current)| == TotalWrites(specs, desired, current)
  {
    if specs != [] {
      NoWritesNoStatements(specs[..|specs| - 1], desired, current);
    }
  }


  /** The revision rises by one exactly when a call is forced or its digest is not the one on record, it is no
      dry run, and its paths are clear; otherwise nothing at all changes. */
  lemma {:induction false} RevisionCountsApplied(specs: seq<TableSpec>, store: Storage, manifests: Manifests, s: SeedState, call: Call,
                              current: Snapshot)
    requires Honest(specs, store, manifests, s) && GoodDesired(specs, store, manifests(call.digest))
    requires Reads(specs, current, s.tables)
    ensures var t := AfterCall(specs, store, s, call, manifests(call.digest), current);
            if (call.force || s.Digest() != Some(call.digest)) && !call.dryRun && PathsClear(specs, manifests(call.digest), current) then
              && t.Revision() == s.Revision() + 1 && t.Digest() == Some(call.digest)
              && t.tables == AfterSeed(specs, store, manifests(call.digest), s.tables)
            else t == s
  {
    var desired := manifests(call.digest);
    SettingOf(specs, store, manifests, s, desired, current);
    SeedSucceedsIff(specs, store, desired, current, s.tables);
    if Applied(specs, store, s, call, desired, current) {
      AttemptLeaves(specs, store, desired, current, s.tables);
    }
  }

  // ---- The seeder that always diffs ---------------------------------------------------------------------

  function Forced(calls: seq<Call>): seq<Call> {
    seq(|calls|, i requires 0 <= i < |calls| => calls[i].(force := true))
  }

  /** Whether a seed goes through does not depend on the order of the snapshot. */
  lemma {:induction false} OrderDoesNotMatter(specs: seq<TableSpec>, store: Storage, desired: Snapshot, one: Snapshot, other: Snapshot, db: Tables)
    requires SeedSetting(specs, store, desired, one, db) && SeedSetting(specs, store, desired, other, db)
    requires UniqueDesired(specs, desired)
    ensures Run(store, db, StatementsFor(specs, desired, one)).Done? <==> Run(store, db, StatementsFor(specs, desired, other)).Done?
  {
    SeedSucceedsIff(specs, store, desired, one, db);
    SeedSucceedsIff(specs, store, desired, other, db);
    forall i | 0 <= i < |specs| ensures TableClear(specs[i], desired, one) <==> TableClear(specs[i], desired, other) {
      assert RowsOf(one, specs[i].name).at == RowsOf(other, specs[i].name).at;
    }
  }

  /** States that differ at most in how often a settled catalogue was written again. */
  predicate SameCatalogue(s: SeedState, t: SeedState) {
    s.tables == t.tables && s.Digest() == t.Digest()
  }

  lemma SkippedStep(specs: seq<TableSpec>, store: Storage, manifests: Manifests, s: SeedState, call: Call, other: Snapshot)
    requires Honest(specs, store, manifests, s) && Skips(s, call) && Reads(specs, other, s.tables)
    ensures Attempt(specs, store, s, manifests(call.digest), other) == Done(s.tables)
  {
    NoWritesIffSettled(specs, manifests(call.digest), other, s.tables);
    NoWritesNoStatements(specs, manifests(call.digest), other);
  }

  lemma SameAttempt(specs: seq<TableSpec>, store: Storage, manifests: Manifests, s: SeedState, desired: Snapshot,
                    one: Snapshot, other: Snapshot)
    requires Honest(specs, store, manifests, s) && GoodDesired(specs, store, desired)
    requires Reads(specs, one, s.tables) && Reads(specs, other, s.tables)
    ensures match Attempt(specs, store, s, desired, one)
            case Done(tables) => Attempt(specs, store, s, desired, other) == Done(tables)
            case Failed(_) => Attempt(specs, store, s, desired, other).Failed?
  {
    SettingOf(specs, store, manifests, s, desired, one);
    SettingOf(specs, store, manifests, s, desired, other);
    hide SeedSetting, UniqueDesired, Honest, GoodDesired, Reads;
    OrderDoesNotMatter(specs, store, desired, one, other, s.tables);
    if Attempt(specs, store, s, desired, one).Done? {
      AttemptLeaves(specs, store, desired, one, s.tables);
      AttemptLeaves(specs, store, desired, other, s.tables);
    }
  }

  lemma ForcedStep(specs: seq<TableSpec>, store: Storage, manifests: Manifests, s: SeedState, call: Call, t: SeedState,
                   s': SeedState, t': SeedState)
    requires Honest(specs, store, manifests, s) && Honest(specs, store, manifests, s') && SameCatalogue(s, s')
    requires Step(specs, store, manifests, s, call, t)
    requires Step(specs, store, manifests, s', call.(force := true), t')
    ensures SameCatalogue(t, t') && t.Revision() - s.Revision() <= t'.Revision() - s'.Revision()
  {
    var desired := manifests(call.digest);
    var one :| Reads(specs, one, s.tables) && t == AfterCall(specs, store, s, call, desired, one);
    var other :| Reads(specs, other, s'.tables) && t' == AfterCall(specs, store, s', call.(force := true), desired, other);
    hide Honest, GoodDesired, Reads, Run, StatementsFor;
    assert Attempt(specs, store, s, desired, other) == Attempt(specs, store, s', desired, other);
    if Skips(s, call) {
      SkippedStep(specs, store, manifests, s, call, other);
    } else {
      SameAttempt(specs, store, manifests, s, desired, one, other);
    }
  }

  /** The shortcut refines the seeder that always diffs: run side by side on the same calls they
      hold the same catalogue and the same digest after every call. */
  lemma {:induction false} ShortcutRefinesAlwaysDiff(specs: seq<TableSpec>, store: Storage, manifests: Manifests,
                                                     states: seq<SeedState>, always: seq<SeedState>, calls: seq<Call>, n: nat)
    requires Trace(specs, store, manifests, states, calls) && Trace(specs, store, manifests, always, Forced(calls))
    requires n < |states|
    requires Honest(specs, store, manifests, states[0]) && Honest(specs, store, manifests, always[0])
    requires SameCatalogue(states[0], always[0])
    ensures SameCatalogue(states[n], always[n])
  {
    if n > 0 {
      assert Step(specs, store, manifests, states[n - 1], calls[n - 1], states[n]);
      assert Forced(calls)[n - 1] == calls[n - 1].(force := true);
      assert Step(specs, store, manifests, always[n - 1], Forced(calls)[n - 1], always[n]);
      hide Step, Honest, SameCatalogue, Trace, Forced;
      ShortcutRefinesAlwaysDiff(specs, store, manifests, states, always, calls, n - 1);
      TraceKeepsHonest(specs, store, manifests, states, calls, n - 1);
      TraceKeepsHonest(specs, store, manifests, always, Forced(calls), n - 1);
      ForcedStep(specs, store, manifests, states[n - 1], calls[n - 1], states[n], always[n - 1], always[n]);
    }
  }

  /** The seeder that always diffs writes every time: over every run of forced calls the revision counts the
      calls that are no dry run and meet no duplicate, whatever digest is on record. */
  lemma {:induction false} ForcedAlwaysApplies(specs: seq<TableSpec>, store: Storage, manifests: Manifests,
                                               always: seq<SeedState>, calls: seq<Call>, n: nat)
    requires Trace(specs, store, manifests, always, Forced(calls)) && n < |calls|
    requires Honest(specs, store, manifests, always[0])
    ensures exists current :: Reads(specs, current, always[n].tables) &&
              if !calls[n].dryRun && PathsClear(specs, manifests(calls[n].digest), current)
              then always[n + 1].Revision() == always[n].Revision() + 1 && always[n + 1].Digest() == Some(calls[n].digest)
              else always[n + 1] == always[n]
  {
    TraceKeepsHonest(specs, store, manifests, always, Forced(calls), n);
    var call := Forced(calls)[n];
    assert Step(specs, store, manifests, always[n], call, always[n + 1]);
    var current :| Reads(specs, current, always[n].tables)
      && always[n + 1] == AfterCall(specs, store, always[n], call, manifests(call.digest), current);
    hide Trace, Honest, Reads, AfterCall, PathsClear;
    RevisionCountsApplied(specs, store, manifests, always[n], call, current);
  }

  // ---- Where the hypotheses come from --------------------------------------------------------------------

  /** What validation lets through is good, over storage that keeps canonical values. */
  lemma ManifestIsGood(cs: seq<Manifest.Capability>, doc: Manifest.ProvidersDoc, routing: Rows, devices: Rows, store: Storage)
    requires Manifest.WellFormed(cs, doc) && SeedDesired.GivenRows(routing, devices)
    requires FaithfulStorage(TABLE_SPECS, store, SeedDesired.BuildDesired(cs, doc, routing, devices))
    ensures GoodSchema(TABLE_SPECS) && GoodDesired(TABLE_SPECS, store, SeedDesired.BuildDesired(cs, doc, routing, devices))
  {
    hide SeedDesired.BuildDesired;
    SchemaIsGood();
    SeedDesired.DesiredIsValid(cs, doc, routing, devices);
    SeedDesired.DesiredIsClosed(cs, doc, routing, devices);
    SeedDesired.DesiredIsUnique(cs, doc, routing, devices);
  }

  /** Every run may start from an empty catalogue. */
  lemma EmptyIsHonest(store: Storage, manifests: Manifests)
    ensures var tables := map i | 0 <= i < |TABLE_SPECS| :: TABLE_SPECS[i].name := map[];
            Honest(TABLE_SPECS, store, manifests, SeedState(tables, None))
  {
    SchemaIsGood();
    NamesAreDistinct();
  }
}
