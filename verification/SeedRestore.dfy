/** Remove, then restore: seeding a part of a catalogue and then the whole of it again. */
module SeedRestore {
  import opened Common
  import opened Values
  import opened SeedPlan
  import opened SeedApply
  import opened SeedConvergence
  import opened SeedCatalogue
  import opened SeedConstraints
  import opened SeedCollisions
  import opened SeedUniqueness
  import opened SeedHistory

  /** Two catalogues that agree in every desired column and wherever nothing is desired. */
  ghost predicate TableAgrees(desired: map<Key, Row>, a: Table, b: Table) {
    && a.Keys == b.Keys
    && forall k :: k in a ==>
         if k in desired then forall c :: c in desired[k] ==> Canon(Get(a[k], c)) == Canon(Get(b[k], c)) else a[k] == b[k]
  }

  ghost predicate CatalogueAgrees(specs: seq<TableSpec>, desired: Snapshot, a: Tables, b: Tables) {
    forall i :: 0 <= i < |specs| ==>
      TableAgrees(RowsOf(desired, specs[i].name).at, TableOf(a, specs[i].name), TableOf(b, specs[i].name))
  }

  /** `part` is `whole` with some rows left out. */
  ghost predicate PartOf(specs: seq<TableSpec>, part: Snapshot, whole: Snapshot) {
    forall i :: 0 <= i < |specs| ==> SubRows(RowsOf(part, specs[i].name).at, RowsOf(whole, specs[i].name).at)
  }

  predicate SubRows(part: map<Key, Row>, whole: map<Key, Row>) {
    forall k :: k in part ==> k in whole && whole[k] == part[k]
  }

  // ---- One table ---------------------------------------------------------------------------------------

  /** Over a settled table a part writes nothing: it only disables or deletes. */
  lemma PartWritesNothing(spec: TableSpec, part: map<Key, Row>, whole: map<Key, Row>, cur: Table)
    requires Settled(spec, whole, cur) && SubRows(part, whole)
    ensures Missing(part, cur) == {} && Changed(part, cur) == {}
  {
  }

  /** A row the part leaves out keeps all it had but its `enabled` flag, or goes. */
  lemma LeftOut(store: Storage, spec: TableSpec, part: map<Key, Row>, whole: map<Key, Row>, cur: Table)
    requires Settled(spec, whole, cur) && SubRows(part, whole)
    ensures var then_ := AfterTable(store, spec, part, cur);
            && then_.Keys <= cur.Keys
            && (forall k, c :: k in then_ && c != Enabled ==> Get(then_[k], c) == Get(cur[k], c))
            && (forall k :: k in cur && k !in then_ ==> spec.removal.Delete? && k in whole)
            && (forall k :: k in cur && k !in whole ==> k in then_ && then_[k] == cur[k])
  {
    PartWritesNothing(spec, part, whole, cur);
  }

  /** Seeding the whole again brings the table back. */
  lemma Restored(store: Storage, spec: TableSpec, part: map<Key, Row>, whole: map<Key, Row>, cur: Table)
    requires WellKeyed(spec, whole) && WellKeyed(spec, cur) && Faithful(store, spec, whole)
    requires Settled(spec, whole, cur) && SubRows(part, whole)
    requires WellKeyed(spec, AfterTable(store, spec, part, cur))
    ensures TableAgrees(whole, cur, AfterTable(store, spec, whole, AfterTable(store, spec, part, cur)))
  {
    var then_ := AfterTable(store, spec, part, cur);
    var again := AfterTable(store, spec, whole, then_);
    LeftOut(store, spec, part, whole, cur);
    forall k
      ensures k in cur <==> k in again
      ensures k in cur && k in whole ==> forall c :: c in whole[k] ==> Canon(Get(cur[k], c)) == Canon(Get(again[k], c))
      ensures k in cur && k !in whole ==> again[k] == cur[k]
    {
      RowByRow(store, spec, whole, then_, k);
    }
  }

  /** A row of the settled table, `enabled` aside, does not have what another desired row wants. */
  lemma StoodApart(spec: TableSpec, whole: map<Key, Row>, cur: Table, k: Key, kept: Row, w: Key)
    requires Settled(spec, whole, cur) && UniqueRows(spec.name, whole) && UniqueTable(spec.name, cur)
    requires w in whole && k in cur && k != w
    requires forall c :: c != Enabled ==> Get(kept, c) == Get(cur[k], c)
    ensures !SameUnique(spec.name, kept, whole[w])
  {
    assert !SameUnique(spec.name, cur[k], cur[w]);
    forall c | c in UniqueColumns(spec.name) ensures Get(whole[w], c) == Get(cur[w], c) && c != Enabled {
      UniqueColumnSettled(spec, whole, cur, w, c);
    }
    hide Settled, UniqueRows, UniqueTable, UniqueColumns, Get;
  }

  lemma UniqueColumnSettled(spec: TableSpec, whole: map<Key, Row>, cur: Table, w: Key, c: Column)
    requires Settled(spec, whole, cur) && UniqueRows(spec.name, whole)
    requires w in whole && c in UniqueColumns(spec.name)
    ensures Get(whole[w], c) == Get(cur[w], c) && c != Enabled
  {
    assert c in whole[w] && Canon(whole[w][c]) == Canon(Get(cur[w], c));
  }

  /** What is written back meets nobody: in the settled table it stood beside the same rows. */
  lemma RestoreIsClear(store: Storage, spec: TableSpec, part: map<Key, Row>, whole: map<Key, Row>, cur: Table, writes: seq<Key>)
    requires Settled(spec, whole, cur) && SubRows(part, whole)
    requires UniqueRows(spec.name, whole) && UniqueTable(spec.name, cur)
    requires forall k :: k in writes ==> k in whole
    ensures ClearPath(spec.name, whole, AfterTable(store, spec, part, cur), writes)
  {
    var then_ := AfterTable(store, spec, part, cur);
    LeftOut(store, spec, part, whole, cur);
    hide Settled, UniqueRows, UniqueTable, SameUnique, AfterTable, SubRows, Get;
    forall j, k | 0 <= j < |writes| && k in then_ && k != writes[j]
      ensures !SameUnique(spec.name, then_[k], Wanted(whole, writes[j]))
    {
      assert writes[j] in writes;
      StoodApart(spec, whole, cur, k, then_[k], writes[j]);
    }
  }

  // ---- Whole catalogues ----------------------------------------------------------------------------------

  /** A database some seed of `whole` has just left. */
  ghost predicate Seeded(specs: seq<TableSpec>, store: Storage, whole: Snapshot, db: Tables) {
    && GoodSchema(specs) && GoodDesired(specs, store, whole)
    && KeyedDatabase(specs, db) && ForeignKeysHold(db) && UniqueTables(specs, db)
    && CatalogueSettled(specs, whole, db)
  }

  lemma {:induction false} SeedLeavesSeeded(specs: seq<TableSpec>, store: Storage, whole: Snapshot, current: Snapshot, db: Tables)
    requires SeedSetting(specs, store, whole, current, db) && UniqueDesired(specs, whole) && UniqueTables(specs, db)
    requires Run(store, db, StatementsFor(specs, whole, current)).Done?
    ensures Seeded(specs, store, whole, Run(store, db, StatementsFor(specs, whole, current)).tables)
  {
    AttemptLeaves(specs, store, whole, current, db);
    SeedKeepsUnique(specs, store, StatementsFor(specs, whole, current), db);
    hide Run, StatementsFor, AfterSeed, UniqueTables, CatalogueSettled, KeyedDatabase, ForeignKeysHold, Reads;
  }

  lemma {:induction false} SeedKeepsUnique(specs: seq<TableSpec>, store: Storage, stmts: seq<Statement>, db: Tables)
    requires forall i :: 0 <= i < |specs| ==> Enabled !in UniqueColumns(specs[i].name)
    requires UniqueTables(specs, db) && Run(store, db, stmts).Done?
    ensures UniqueTables(specs, Run(store, db, stmts).tables)
  {
    hide Run, UniqueTable;
    forall i | 0 <= i < |specs| ensures UniqueTable(specs[i].name, TableOf(Run(store, db, stmts).tables, specs[i].name)) {
      RunKeepsUnique(store, db, stmts, specs[i].name);
    }
  }

  lemma PartIsGood(specs: seq<TableSpec>, store: Storage, part: Snapshot, whole: Snapshot)
    requires GoodDesired(specs, store, whole) && PartOf(specs, part, whole)
    requires (forall i :: 0 <= i < |specs| ==> RowsOf(part, specs[i].name).Valid()) && ClosedDesired(specs, part)
    ensures GoodDesired(specs, store, part)
  {
  }

  lemma RemovalTableClear(specs: seq<TableSpec>, store: Storage, part: Snapshot, whole: Snapshot, current: Snapshot, db: Tables, i: nat)
    requires Seeded(specs, store, whole, db) && GoodDesired(specs, store, part) && PartOf(specs, part, whole)
    requires Reads(specs, current, db) && i < |specs|
    ensures TableClear(specs[i], part, current)
  {
    var spec := specs[i];
    PartWritesNothing(spec, RowsOf(part, spec.name).at, RowsOf(whole, spec.name).at, db[spec.name]);
    WritesOfPlan(spec, RowsOf(part, spec.name), RowsOf(current, spec.name));
    var plan := PlanOf(spec, part, current);
    hide PlanFor, Missing, Changed, ClearAt, Settled, SubRows;
    EmptyAsSet(plan.creates + plan.updates);
  }

  lemma EmptyAsSet(keys: seq<Key>)
    ensures AsSet(keys) == {} ==> keys == []
  {
    if keys != [] {
      assert keys[0] in AsSet(keys);
    }
  }

  /** Seeding a part of what is there always goes through. */
  lemma {:induction false} RemovalGoesThrough(specs: seq<TableSpec>, store: Storage, part: Snapshot, whole: Snapshot, current: Snapshot, db: Tables)
    requires Seeded(specs, store, whole, db) && GoodDesired(specs, store, part) && PartOf(specs, part, whole)
    requires Reads(specs, current, db)
    ensures Run(store, db, StatementsFor(specs, part, current)) == Done(AfterSeed(specs, store, part, db))
  {
    forall i | 0 <= i < |specs| ensures TableClear(specs[i], part, current) {
      RemovalTableClear(specs, store, part, whole, current, db, i);
    }
    SeedSucceedsIff(specs, store, part, current, db);
    SeedRuns(specs, store, part, current, db);
  }

  lemma {:induction false} RestoreTableClear(specs: seq<TableSpec>, store: Storage, part: Snapshot, whole: Snapshot, current: Snapshot, db: Tables, i: nat)
    requires Seeded(specs, store, whole, db) && GoodDesired(specs, store, part) && PartOf(specs, part, whole)
    requires Reads(specs, current, AfterSeed(specs, store, part, db)) && i < |specs|
    ensures TableClear(specs[i], whole, current)
  {
    var spec := specs[i];
    AfterSeedTable(specs, store, part, db, i);
    WritesOfPlan(spec, RowsOf(whole, spec.name), RowsOf(current, spec.name));
    var plan := PlanOf(spec, whole, current);
    RestoreIsClear(store, spec, RowsOf(part, spec.name).at, RowsOf(whole, spec.name).at, db[spec.name], plan.creates + plan.updates);
  }

  /** From a database seeded with `whole`, seed any closed part of it, then `whole` again: both
      seeds go through, and every catalogue column is back to what it was. Rows that were disabled
      are enabled again and deleted edges are there again. */
  lemma {:induction false} RemoveThenRestore(specs: seq<TableSpec>, store: Storage, part: Snapshot, whole: Snapshot,
                          current: Snapshot, later: Snapshot, db: Tables)
    requires Seeded(specs, store, whole, db)
    requires (forall i :: 0 <= i < |specs| ==> RowsOf(part, specs[i].name).Valid()) && ClosedDesired(specs, part)
    requires PartOf(specs, part, whole)
    requires Reads(specs, current, db) && Reads(specs, later, AfterSeed(specs, store, part, db))
    ensures Run(store, db, StatementsFor(specs, part, current)) == Done(AfterSeed(specs, store, part, db))
    ensures var back := Run(store, AfterSeed(specs, store, part, db), StatementsFor(specs, whole, later));
            back.Done? && CatalogueAgrees(specs, whole, db, back.tables)
  {
    var then_ := AfterSeed(specs, store, part, db);
    PartIsGood(specs, store, part, whole);
    RemovalGoesThrough(specs, store, part, whole, current, db);
    AttemptLeaves(specs, store, part, current, db);
    forall i | 0 <= i < |specs| ensures TableClear(specs[i], whole, later) {
      RestoreTableClear(specs, store, part, whole, later, db, i);
    }
    SeedSucceedsIff(specs, store, whole, later, then_);
    SeedRuns(specs, store, whole, later, then_);
    RestoredTables(specs, store, part, whole, db);
  }

  lemma {:induction false} RestoredTables(specs: seq<TableSpec>, store: Storage, part: Snapshot, whole: Snapshot, db: Tables)
    requires Seeded(specs, store, whole, db) && GoodDesired(specs, store, part) && PartOf(specs, part, whole)
    requires KeyedDatabase(specs, AfterSeed(specs, store, part, db))
    ensures CatalogueAgrees(specs, whole, db, AfterSeed(specs, store, whole, AfterSeed(specs, store, part, db)))
  {
    var then_ := AfterSeed(specs, store, part, db);
    forall i | 0 <= i < |specs|
      ensures TableAgrees(RowsOf(whole, specs[i].name).at, TableOf(db, specs[i].name),
                          TableOf(AfterSeed(specs, store, whole, then_), specs[i].name))
    {
      AfterSeedTable(specs, store, part, db, i);
      AfterSeedTable(specs, store, whole, then_, i);
      Restored(store, specs[i], RowsOf(part, specs[i].name).at, RowsOf(whole, specs[i].name).at, db[specs[i].name]);
    }
  }
}
