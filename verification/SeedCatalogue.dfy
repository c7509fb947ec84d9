/** All catalogue tables together: the statements of a whole seed, in the order of the table
    specs. The lemmas hold of every list of specs with distinct names. */
module SeedCatalogue {
  import opened SeedPlan
  import opened SeedApply
  import opened SeedConvergence

  type Snapshot = map<TableName, Rows>

  function RowsOf(s: Snapshot, name: TableName): Rows {
    if name in s then s[name] else Rows([], map[])
  }

  ghost predicate DistinctNames(specs: seq<TableSpec>) {
    forall i, j :: 0 <= i < j < |specs| ==> specs[i].name != specs[j].name
  }

  /** `current` is a read of `db`: the same rows, in whatever order the database returned them. */
  ghost predicate Reads(specs: seq<TableSpec>, current: Snapshot, db: Tables) {
    forall i :: 0 <= i < |specs| ==>
      && specs[i].name in db
      && RowsOf(current, specs[i].name).Valid() && RowsOf(current, specs[i].name).at == db[specs[i].name]
  }

  ghost predicate ValidDesired(specs: seq<TableSpec>, desired: Snapshot) {
    forall i :: 0 <= i < |specs| ==>
      RowsOf(desired, specs[i].name).Valid() && WellKeyed(specs[i], RowsOf(desired, specs[i].name).at)
  }

  ghost predicate KeyedDatabase(specs: seq<TableSpec>, db: Tables) {
    forall i :: 0 <= i < |specs| ==> specs[i].name in db && WellKeyed(specs[i], db[specs[i].name])
  }

  ghost predicate FaithfulStorage(specs: seq<TableSpec>, store: Storage, desired: Snapshot) {
    forall i :: 0 <= i < |specs| ==> Faithful(store, specs[i], RowsOf(desired, specs[i].name).at)
  }

  function PlanOf(spec: TableSpec, desired: Snapshot, current: Snapshot): TablePlan {
    PlanFor(spec, RowsOf(desired, spec.name), RowsOf(current, spec.name))
  }

  /** The statements `apply_plan` executes. */
  function StatementsFor(specs: seq<TableSpec>, desired: Snapshot, current: Snapshot): seq<Statement> {
    if specs == [] then []
    else
      var front, spec := specs[..|specs| - 1], specs[|specs| - 1];
      StatementsFor(front, desired, current) + TableStatements(PlanOf(spec, desired, current))
  }

  /** The database a successful seed leaves. */
  function AfterSeed(specs: seq<TableSpec>, store: Storage, desired: Snapshot, db: Tables): Tables {
    if specs == [] then db
    else
      var front, spec := specs[..|specs| - 1], specs[|specs| - 1];
      AfterSeed(front, store, desired, db)[spec.name :=
        AfterTable(store, spec, RowsOf(desired, spec.name).at, TableOf(db, spec.name))]
  }

  ghost predicate Elsewhere(specs: seq<TableSpec>, name: TableName) {
    forall i :: 0 <= i < |specs| ==> specs[i].name != name
  }

  lemma {:induction false} AfterSeedElsewhere(specs: seq<TableSpec>, store: Storage, desired: Snapshot, db: Tables, name: TableName)
    requires Elsewhere(specs, name)
    ensures name in db <==> name in AfterSeed(specs, store, desired, db)
    ensures name in db ==> AfterSeed(specs, store, desired, db)[name] == db[name]
  {
    if specs != [] {
      assert forall i :: 0 <= i < |specs| - 1 ==> specs[..|specs| - 1][i] == specs[i];
      AfterSeedElsewhere(specs[..|specs| - 1], store, desired, db, name);
    }
  }

  lemma {:induction false} AfterSeedTable(specs: seq<TableSpec>, store: Storage, desired: Snapshot, db: Tables, i: nat)
    requires DistinctNames(specs) && i < |specs|
    ensures var name := specs[i].name;
            && name in AfterSeed(specs, store, desired, db)
            && AfterSeed(specs, store, desired, db)[name]
               == AfterTable(store, specs[i], RowsOf(desired, name).at, TableOf(db, name))
  {
    if i < |specs| - 1 {
      var front := specs[..|specs| - 1];
      assert forall j :: 0 <= j < |front| ==> front[j] == specs[j];
      AfterSeedTable(front, store, desired, db, i);
    }
  }

  lemma {:induction false} StatementsSplit(specs: seq<TableSpec>, desired: Snapshot, current: Snapshot)
    requires specs != []
    ensures StatementsFor(specs, desired, current) ==
            StatementsFor(specs[..|specs| - 1], desired, current) + TableStatements(PlanOf(specs[|specs| - 1], desired, current))
  {
  }

  lemma FrontReads(specs: seq<TableSpec>, desired: Snapshot, current: Snapshot, db: Tables)
    requires specs != [] && DistinctNames(specs) && ValidDesired(specs, desired) && Reads(specs, current, db)
    ensures var front := specs[..|specs| - 1];
            DistinctNames(front) && ValidDesired(front, desired) && Reads(front, current, db)
  {
    var front := specs[..|specs| - 1];
    assert forall i :: 0 <= i < |front| ==> front[i] == specs[i];
  }

  lemma LastReads(specs: seq<TableSpec>, desired: Snapshot, current: Snapshot, db: Tables)
    requires specs != [] && ValidDesired(specs, desired) && Reads(specs, current, db)
    ensures var name := specs[|specs| - 1].name;
            && RowsOf(desired, name).Valid() && RowsOf(current, name).Valid()
            && name in db && db[name] == RowsOf(current, name).at
  {
  }

  lemma {:induction false} AfterSeedSplit(specs: seq<TableSpec>, store: Storage, desired: Snapshot, db: Tables)
    requires specs != []
    ensures var spec := specs[|specs| - 1];
            AfterSeed(specs, store, desired, db) ==
            AfterSeed(specs[..|specs| - 1], store, desired, db)[spec.name :=
              AfterTable(store, spec, RowsOf(desired, spec.name).at, TableOf(db, spec.name))]
  {
  }

  /** A seed that no statement fails leaves exactly `AfterSeed`, table by table. */
  lemma {:induction false} SeedRuns(specs: seq<TableSpec>, store: Storage, desired: Snapshot, current: Snapshot, db: Tables)
    requires DistinctNames(specs) && ValidDesired(specs, desired) && Reads(specs, current, db)
    requires Run(store, db, StatementsFor(specs, desired, current)).Done?
    ensures Run(store, db, StatementsFor(specs, desired, current)).tables == AfterSeed(specs, store, desired, db)
  {
    if specs != [] {
      FrontReads(specs, desired, current, db);
      LastReads(specs, desired, current, db);
      hide DistinctNames, ValidDesired, Reads, Run, StatementsFor, AfterSeed, AfterTable, TableStatements;
      var front, spec := specs[..|specs| - 1], specs[|specs| - 1];
      var before, own := StatementsFor(front, desired, current), TableStatements(PlanOf(spec, desired, current));
      StatementsSplit(specs, desired, current);
      RunAppend(store, db, before, own);
      SeedRuns(front, store, desired, current, db);
      UntouchedYet(specs, store, desired, db);
      TableRuns(store, AfterSeed(front, store, desired, db), spec, RowsOf(desired, spec.name), RowsOf(current, spec.name));
      AfterSeedSplit(specs, store, desired, db);
    }
  }

  lemma UntouchedYet(specs: seq<TableSpec>, store: Storage, desired: Snapshot, db: Tables)
    requires specs != [] && DistinctNames(specs) && specs[|specs| - 1].name in db
    ensures var name := specs[|specs| - 1].name;
            var before := AfterSeed(specs[..|specs| - 1], store, desired, db);
            name in before && before[name] == db[name]
  {
    var front, name := specs[..|specs| - 1], specs[|specs| - 1].name;
    assert forall i :: 0 <= i < |front| ==> front[i] == specs[i];
    AfterSeedElsewhere(front, store, desired, db, name);
  }

  ghost predicate CatalogueSettled(specs: seq<TableSpec>, desired: Snapshot, db: Tables) {
    forall i :: 0 <= i < |specs| ==>
      Settled(specs[i], RowsOf(desired, specs[i].name).at, TableOf(db, specs[i].name))
  }

  function TotalWrites(specs: seq<TableSpec>, desired: Snapshot, current: Snapshot): nat {
    if specs == [] then 0
    else
      TotalWrites(specs[..|specs| - 1], desired, current) + PlanOf(specs[|specs| - 1], desired, current).Writes()
  }

  lemma SettledSplit(specs: seq<TableSpec>, desired: Snapshot, db: Tables)
    requires specs != []
    ensures CatalogueSettled(specs, desired, db) <==>
              && CatalogueSettled(specs[..|specs| - 1], desired, db)
              && Settled(specs[|specs| - 1], RowsOf(desired, specs[|specs| - 1].name).at, TableOf(db, specs[|specs| - 1].name))
  {
    var front := specs[..|specs| - 1];
    assert forall i :: 0 <= i < |front| ==> front[i] == specs[i];
  }

  lemma {:induction false} NoWritesIffSettled(specs: seq<TableSpec>, desired: Snapshot, current: Snapshot, db: Tables)
    requires ValidDesired(specs, desired) && Reads(specs, current, db)
    ensures TotalWrites(specs, desired, current) == 0 <==> CatalogueSettled(specs, desired, db)
  {
    if specs != [] {
      var front, spec := specs[..|specs| - 1], specs[|specs| - 1];
      assert ValidDesired(front, desired) && Reads(front, current, db);
      NoWritesIffSettled(front, desired, current, db);
      EmptyPlanIffSettled(spec, RowsOf(desired, spec.name), RowsOf(current, spec.name));
      SettledSplit(specs, desired, db);
    }
  }

  /** Convergence and idempotence of a whole seed: what it leaves is settled, and any later read of
      it is planned with no write at all. */
  lemma {:induction false} SeedConverges(specs: seq<TableSpec>, store: Storage, desired: Snapshot, db: Tables, later: Snapshot)
    requires DistinctNames(specs)
    requires ValidDesired(specs, desired) && KeyedDatabase(specs, db) && FaithfulStorage(specs, store, desired)
    requires Reads(specs, later, AfterSeed(specs, store, desired, db))
    ensures CatalogueSettled(specs, desired, AfterSeed(specs, store, desired, db))
    ensures KeyedDatabase(specs, AfterSeed(specs, store, desired, db))
    ensures TotalWrites(specs, desired, later) == 0
  {
    var after := AfterSeed(specs, store, desired, db);
    forall i | 0 <= i < |specs|
      ensures specs[i].name in after
      ensures Settled(specs[i], RowsOf(desired, specs[i].name).at, TableOf(after, specs[i].name))
      ensures WellKeyed(specs[i], after[specs[i].name])
    {
      AfterSeedTable(specs, store, desired, db, i);
      Converges(store, specs[i], RowsOf(desired, specs[i].name).at, db[specs[i].name]);
    }
    NoWritesIffSettled(specs, desired, later, after);
  }
}
