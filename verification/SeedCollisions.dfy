/** Unique constraints during a seed. They are checked after every statement, and creates and
    updates run before deletes, so a row that is still to be rewritten or deleted can be in the way. */
module SeedCollisions {
  import opened Common
  import opened Values
  import opened SeedPlan
  import opened SeedApply
  import opened SeedConvergence
  import opened SeedCatalogue
  import opened SeedConstraints

  /** A row already in the table never holds what a write wants, unless it was rewritten before. */
  ghost predicate ClearPath(table: TableName, desired: map<Key, Row>, cur: Table, writes: seq<Key>) {
    forall j :: 0 <= j < |writes| ==> ClearAt(table, desired, cur, writes, j)
  }

  ghost predicate ClearAt(table: TableName, desired: map<Key, Row>, cur: Table, writes: seq<Key>, j: nat)
    requires j < |writes|
  {
    forall k :: k in cur && k != writes[j] && SameUnique(table, cur[k], Wanted(desired, writes[j])) ==> k in writes[..j]
  }

  ghost predicate UniqueRows(table: TableName, desired: map<Key, Row>) {
    && (forall k, c :: k in desired && c in UniqueColumns(table) ==> Get(desired[k], c).Text? || Get(desired[k], c).Int?)
    && (forall k, k' :: k in desired && k' in desired && k != k' ==> !SameUnique(table, desired[k], desired[k']))
  }

  lemma WrittenUnique(store: Storage, spec: TableSpec, desired: map<Key, Row>, cur: Table, written: set<Key>, k: Key)
    requires WellKeyed(spec, desired) && WellKeyed(spec, cur) && Faithful(store, spec, desired)
    requires UniqueRows(spec.name, desired)
    requires written <= desired.Keys && k in Written(store, spec, desired, cur, written)
    ensures var row := Written(store, spec, desired, cur, written)[k];
            forall c :: c in UniqueColumns(spec.name) ==> Get(row, c) == Get(if k in written then desired[k] else cur[k], c)
  {
    if k in written {
      forall c | c in UniqueColumns(spec.name) ensures Get(NewRow(store, spec, cur, k, desired[k]), c) == Get(desired[k], c) {
        WrittenText(store, spec, cur, k, desired[k], c);
      }
    }
  }

  /** At one write: some other row collides exactly when a row not yet written is in the way. */
  lemma CollidesIff(store: Storage, spec: TableSpec, desired: map<Key, Row>, cur: Table, writes: seq<Key>, j: nat)
    requires WellKeyed(spec, desired) && WellKeyed(spec, cur) && Faithful(store, spec, desired)
    requires UniqueRows(spec.name, desired)
    requires Distinct(writes) && (forall k :: k in writes ==> k in desired) && j < |writes|
    ensures Collides(spec.name, Written(store, spec, desired, cur, AsSet(writes[..j + 1])), writes[j])
      <==> !ClearAt(spec.name, desired, cur, writes, j)
  {
    var written := AsSet(writes[..j + 1]);
    var rows := Written(store, spec, desired, cur, written);
    var w := writes[j];
    assert writes[j] == writes[..j + 1][j];
    assert w in written;
    forall k | k in rows && k != w
      ensures SameUnique(spec.name, rows[k], rows[w]) <==> k !in written && SameUnique(spec.name, cur[k], desired[w])
    {
      WrittenUnique(store, spec, desired, cur, written, k);
      WrittenUnique(store, spec, desired, cur, written, w);
    }
    forall k ensures k in written <==> k in writes[..j] || k == w {
      assert writes[..j + 1] == writes[..j] + [w];
    }
  }

  lemma StepCollides(store: Storage, spec: TableSpec, desired: map<Key, Row>, cur: Table, writes: seq<Key>, j: nat, now: Tables)
    requires WellKeyed(spec, desired) && WellKeyed(spec, cur) && Faithful(store, spec, desired)
    requires UniqueRows(spec.name, desired)
    requires Distinct(writes) && (forall k :: k in writes ==> k in desired) && j < |writes|
    requires AsSet(writes[..j]) <= desired.Keys
    requires spec.name in now && now[spec.name] == Written(store, spec, desired, cur, AsSet(writes[..j]))
    ensures var result := Exec(store, now, Upsert(spec, writes[j], desired[writes[j]]));
            && (result.Done? ==> ClearAt(spec.name, desired, cur, writes, j))
            && (result == Failed(Duplicate) ==> !ClearAt(spec.name, desired, cur, writes, j))
  {
    assert writes[..j + 1] == writes[..j] + [writes[j]];
    assert AsSet(writes[..j + 1]) == AsSet(writes[..j]) + {writes[j]};
    assert writes[j] !in writes[..j];
    WrittenNext(store, spec, desired, cur, AsSet(writes[..j]), writes[j]);
    CollidesIff(store, spec, desired, cur, writes, j);
  }

  ghost predicate TableSetting(store: Storage, snapshot: Snapshot, spec: TableSpec, desired: map<Key, Row>, db: Tables) {
    && WellKeyed(spec, desired) && Faithful(store, spec, desired) && UniqueRows(spec.name, desired)
    && StepState(spec, db, db)
    && forall k :: k in desired ==> RowClosed(snapshot, spec.name, desired[k]) && RowRefers(db, spec.name, desired[k])
  }

  ghost predicate Outcome(spec: TableSpec, desired: map<Key, Row>, db: Tables, writes: seq<Key>, n: nat, r: Result)
    requires spec.name in db && n <= |writes|
  {
    match r
    case Failed(v) => v == Duplicate && exists j :: 0 <= j < n && !ClearAt(spec.name, desired, db[spec.name], writes, j)
    case Done(now) =>
      StepState(spec, db, now) && forall j :: 0 <= j < n ==> ClearAt(spec.name, desired, db[spec.name], writes, j)
  }

  lemma UpsertsSplit(spec: TableSpec, desired: map<Key, Row>, writes: seq<Key>, n: nat)
    requires 0 < n <= |writes| && forall k :: k in writes ==> k in desired
    ensures Upserts(spec, desired, writes)[..n]
         == Upserts(spec, desired, writes)[..n - 1] + [Upsert(spec, writes[n - 1], desired[writes[n - 1]])]
    ensures forall k :: k in writes[..n - 1] ==> k in desired
    ensures Upserts(spec, desired, writes)[..n - 1] == Upserts(spec, desired, writes[..n - 1])
  {
    assert writes[n - 1] in writes;
  }

  lemma NextUpsert(store: Storage, snapshot: Snapshot, spec: TableSpec, desired: map<Key, Row>, db: Tables,
                   writes: seq<Key>, j: nat, now: Tables)
    requires Distinct(writes) && (forall k :: k in writes ==> k in desired) && j < |writes|
    requires TableSetting(store, snapshot, spec, desired, db) && StepState(spec, db, now)
    requires AsSet(writes[..j]) <= desired.Keys
    requires now[spec.name] == Written(store, spec, desired, db[spec.name], AsSet(writes[..j]))
    ensures match Exec(store, now, Upsert(spec, writes[j], desired[writes[j]]))
            case Failed(v) => v == Duplicate && !ClearAt(spec.name, desired, db[spec.name], writes, j)
            case Done(then_) => StepState(spec, db, then_) && ClearAt(spec.name, desired, db[spec.name], writes, j)
  {
    var w := writes[j];
    KeptOnWrite(store, spec, desired, now, w);
    UpsertKeeps(store, snapshot, spec, db, now, w, desired[w]);
    StepCollides(store, spec, desired, db[spec.name], writes, j, now);
  }

  lemma OutcomeNext(store: Storage, snapshot: Snapshot, spec: TableSpec, desired: map<Key, Row>, db: Tables,
                    writes: seq<Key>, j: nat, now: Tables)
    requires Distinct(writes) && (forall k :: k in writes ==> k in desired) && j < |writes|
    requires TableSetting(store, snapshot, spec, desired, db)
    requires Outcome(spec, desired, db, writes, j, Done(now))
    requires AsSet(writes[..j]) <= desired.Keys
    requires now[spec.name] == Written(store, spec, desired, db[spec.name], AsSet(writes[..j]))
    ensures Outcome(spec, desired, db, writes, j + 1, Exec(store, now, Upsert(spec, writes[j], desired[writes[j]])))
  {
    NextUpsert(store, snapshot, spec, desired, db, writes, j, now);
  }

  lemma OutcomeStays(spec: TableSpec, desired: map<Key, Row>, db: Tables, writes: seq<Key>, j: nat, v: Violation)
    requires (forall k :: k in writes ==> k in desired) && j < |writes| && spec.name in db
    requires Outcome(spec, desired, db, writes, j, Failed(v))
    ensures Outcome(spec, desired, db, writes, j + 1, Failed(v))
  {
  }

  /** The upserts of a table get through exactly as far as their path is clear. */
  lemma {:induction false} UpsertsSucceedIff(store: Storage, snapshot: Snapshot, spec: TableSpec, desired: map<Key, Row>,
                                             db: Tables, writes: seq<Key>, n: nat)
    requires Distinct(writes) && (forall k :: k in writes ==> k in desired) && n <= |writes|
    requires TableSetting(store, snapshot, spec, desired, db)
    ensures Outcome(spec, desired, db, writes, n, Run(store, db, Upserts(spec, desired, writes)[..n]))
  {
    if n > 0 {
      UpsertsSucceedIff(store, snapshot, spec, desired, db, writes, n - 1);
      UpsertsSplit(spec, desired, writes, n);
      var s := Upsert(spec, writes[n - 1], desired[writes[n - 1]]);
      RunAppend(store, db, Upserts(spec, desired, writes)[..n - 1], [s]);
      match Run(store, db, Upserts(spec, desired, writes)[..n - 1]) {
        case Failed(v) => OutcomeStays(spec, desired, db, writes, n - 1, v);
        case Done(now) =>
          UpsertsRun(store, db, spec, desired, writes[..n - 1]);
          RunOne(store, now, s);
          OutcomeNext(store, snapshot, spec, desired, db, writes, n - 1, now);
      }
    }
  }

  lemma {:induction false} RunOne(store: Storage, db: Tables, s: Statement)
    ensures Run(store, db, [s]) == Exec(store, db, s)
  {
    assert [s][..0] == [];
  }

  lemma KeptOnWrite(store: Storage, spec: TableSpec, desired: map<Key, Row>, now: Tables, k: Key)
    requires Faithful(store, spec, desired) && k in desired && spec.name in now
    ensures KeptByStorage(store, spec, now[spec.name], k, desired[k])
  {
  }

  // ---- Whole seeds -------------------------------------------------------------------------------------

  ghost predicate UniqueDesired(specs: seq<TableSpec>, desired: Snapshot) {
    forall i :: 0 <= i < |specs| ==> UniqueRows(specs[i].name, RowsOf(desired, specs[i].name).at)
  }

  ghost predicate TableClear(spec: TableSpec, desired: Snapshot, current: Snapshot) {
    var plan := PlanOf(spec, desired, current);
    ClearPath(spec.name, plan.rows, RowsOf(current, spec.name).at, plan.creates + plan.updates)
  }

  ghost predicate PathsClear(specs: seq<TableSpec>, desired: Snapshot, current: Snapshot) {
    forall i :: 0 <= i < |specs| ==> TableClear(specs[i], desired, current)
  }

  lemma {:induction false} LastTableSetting(specs: seq<TableSpec>, store: Storage, desired: Snapshot, current: Snapshot, db: Tables)
    requires specs != [] && SeedSetting(specs, store, desired, current, db) && UniqueDesired(specs, desired)
    requires ForeignKeysHold(AfterSeed(specs[..|specs| - 1], store, desired, db))
    ensures var spec, now := specs[|specs| - 1], AfterSeed(specs[..|specs| - 1], store, desired, db);
            && TableSetting(store, desired, spec, RowsOf(desired, spec.name).at, now)
            && now[spec.name] == RowsOf(current, spec.name).at
  {
    var i := |specs| - 1;
    var spec, now := specs[i], AfterSeed(specs[..i], store, desired, db);
    var wanted := RowsOf(desired, spec.name);
    UntouchedYet(specs, store, desired, db);
    forall k | k in wanted.at ensures RowClosed(desired, spec.name, wanted.at[k]) && RowRefers(now, spec.name, wanted.at[k]) {
      DesiredParentsPresent(specs, store, desired, db, i, wanted.at[k]);
    }
  }

  /** Upserts that all ran had a clear path, and the other way round. */
  lemma OutcomeDecides(spec: TableSpec, desired: map<Key, Row>, db: Tables, writes: seq<Key>, r: Result)
    requires spec.name in db && Outcome(spec, desired, db, writes, |writes|, r)
    ensures r.Done? <==> ClearPath(spec.name, desired, db[spec.name], writes)
  {
    hide ClearAt;
  }

  lemma {:induction false} TableSucceedsIff(store: Storage, snapshot: Snapshot, spec: TableSpec, wanted: Rows, found: Rows, now: Tables)
    requires wanted.Valid() && found.Valid() && TableSetting(store, snapshot, spec, wanted.at, now)
    requires spec.name in now && now[spec.name] == found.at
    ensures Run(store, now, TableStatements(PlanFor(spec, wanted, found))).Done? <==>
              ClearPath(spec.name, wanted.at, found.at, PlanFor(spec, wanted, found).creates + PlanFor(spec, wanted, found).updates)
  {
    TableRuns(store, now, spec, wanted, found);
    WritesOfPlan(spec, wanted, found);
    var plan := PlanFor(spec, wanted, found);
    assert plan.rows == wanted.at;
    hide Run, TableStatements, PlanFor, TableSetting, Outcome, ClearPath;
    var writes := plan.creates + plan.updates;
    UpsertsSucceedIff(store, snapshot, spec, wanted.at, now, writes, |writes|);
    assert Upserts(spec, wanted.at, writes)[..|writes|] == Upserts(spec, wanted.at, writes);
    OutcomeDecides(spec, wanted.at, now, writes, Run(store, now, Upserts(spec, wanted.at, writes)));
  }

  lemma {:induction false} LastTableSucceedsIff(specs: seq<TableSpec>, store: Storage, desired: Snapshot, current: Snapshot, db: Tables)
    requires specs != [] && SeedSetting(specs, store, desired, current, db) && UniqueDesired(specs, desired)
    requires ForeignKeysHold(AfterSeed(specs[..|specs| - 1], store, desired, db))
    ensures Run(store, AfterSeed(specs[..|specs| - 1], store, desired, db),
                TableStatements(PlanOf(specs[|specs| - 1], desired, current))).Done?
       <==> TableClear(specs[|specs| - 1], desired, current)
  {
    var spec, now := specs[|specs| - 1], AfterSeed(specs[..|specs| - 1], store, desired, db);
    LastTableSetting(specs, store, desired, current, db);
    LastReads(specs, desired, current, db);
    hide SeedSetting, TableSetting, UniqueDesired, ForeignKeysHold, AfterSeed, Run, TableStatements, ClearPath;
    TableSucceedsIff(store, desired, spec, RowsOf(desired, spec.name), RowsOf(current, spec.name), now);
  }

  lemma PathsSplit(specs: seq<TableSpec>, desired: Snapshot, current: Snapshot)
    requires specs != []
    ensures PathsClear(specs, desired, current) <==>
              PathsClear(specs[..|specs| - 1], desired, current) && TableClear(specs[|specs| - 1], desired, current)
    ensures UniqueDesired(specs, desired) ==> UniqueDesired(specs[..|specs| - 1], desired)
  {
    var front := specs[..|specs| - 1];
    assert forall i :: 0 <= i < |front| ==> front[i] == specs[i];
  }

  /** A seed goes through exactly when no row still to be rewritten, disabled or deleted holds a
      unique value a write needs. The condition reads only the plan and the snapshot. */
  lemma {:induction false} SeedSucceedsIff(specs: seq<TableSpec>, store: Storage, desired: Snapshot, current: Snapshot, db: Tables)
    requires SeedSetting(specs, store, desired, current, db) && UniqueDesired(specs, desired)
    ensures Run(store, db, StatementsFor(specs, desired, current)).Done? <==> PathsClear(specs, desired, current)
  {
    if specs != [] {
      var front, spec := specs[..|specs| - 1], specs[|specs| - 1];
      PrefixSetting(specs, store, desired, current, db);
      PathsSplit(specs, desired, current);
      var before, own := StatementsFor(front, desired, current), TableStatements(PlanOf(spec, desired, current));
      RunAppend(store, db, before, own);
      SeedSucceedsIff(front, store, desired, current, db);
      if Run(store, db, before).Done? {
        ForeignKeysAlwaysHold(front, store, desired, current, db, |before|);
        assert before[..|before|] == before;
        SeedRuns(front, store, desired, current, db);
        LastTableSucceedsIff(specs, store, desired, current, db);
      }
    }
  }

  /** Into an empty database every seed goes through. */
  lemma {:induction false} FirstSeedSucceeds(specs: seq<TableSpec>, store: Storage, desired: Snapshot, current: Snapshot, db: Tables)
    requires SeedSetting(specs, store, desired, current, db) && UniqueDesired(specs, desired)
    requires forall i :: 0 <= i < |specs| ==> db[specs[i].name] == map[]
    ensures Run(store, db, StatementsFor(specs, desired, current)) == Done(AfterSeed(specs, store, desired, db))
  {
    forall i | 0 <= i < |specs| ensures TableClear(specs[i], desired, current) {
      WritesOfPlan(specs[i], RowsOf(desired, specs[i].name), RowsOf(current, specs[i].name));
    }
    SeedSucceedsIff(specs, store, desired, current, db);
    SeedRuns(specs, store, desired, current, db);
  }
}
