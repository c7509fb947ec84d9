/** Unique constraints over whole tables: statements keep them, and a seed gets past them exactly when
    every row that has to make way is rewritten in time. */
module SeedUniqueness {
  import opened Common
  import opened Values
  import opened SeedPlan
  import opened SeedApply
  import opened SeedCatalogue
  import opened SeedConstraints
  import opened SeedCollisions

  ghost predicate UniqueTable(name: TableName, rows: Table) {
    forall k, k' :: k in rows && k' in rows && k != k' ==> !SameUnique(name, rows[k], rows[k'])
  }

  ghost predicate UniqueTables(specs: seq<TableSpec>, db: Tables) {
    forall i :: 0 <= i < |specs| ==> UniqueTable(specs[i].name, TableOf(db, specs[i].name))
  }

  // ---- What the database demands ---------------------------------------------------------------------------

  /** Every row of a table names a row of another in this column. */
  ghost predicate ColumnRefers(db: Tables, table: TableName, column: Column, parent: TableName) {
    forall k :: k in TableOf(db, table) ==>
      exists id :: Get(TableOf(db, table)[k], column) == Text(id) && [id] in TableOf(db, parent)
  }

  ghost predicate RowsRefer(db: Tables, table: TableName) {
    forall k :: k in TableOf(db, table) ==> RowRefers(db, table, TableOf(db, table)[k])
  }

  lemma RefersIff(db: Tables, row: Row, r: Reference)
    ensures Refers(db, row, r) <==> exists id :: Get(row, r.column) == Text(id) && [id] in TableOf(db, r.parent)
  {
  }

  lemma RowRefersTwice(db: Tables, table: TableName, row: Row, one: Reference, other: Reference)
    requires References(table) == [one, other]
    ensures RowRefers(db, table, row) <==> Refers(db, row, one) && Refers(db, row, other)
  {
    hide Refers, References;
    assert one in [one, other] && other in [one, other];
  }

  lemma TwoReferences(db: Tables, table: TableName, one: Reference, other: Reference)
    requires References(table) == [one, other]
    ensures RowsRefer(db, table) <==>
              ColumnRefers(db, table, one.column, one.parent) && ColumnRefers(db, table, other.column, other.parent)
  {
    hide Refers, References, RowRefers, TableOf;
    forall k | k in TableOf(db, table)
      ensures RowRefers(db, table, TableOf(db, table)[k]) <==>
                Refers(db, TableOf(db, table)[k], one) && Refers(db, TableOf(db, table)[k], other)
    {
      RowRefersTwice(db, table, TableOf(db, table)[k], one, other);
    }
    forall k, r | k in TableOf(db, table)
      ensures Refers(db, TableOf(db, table)[k], r) <==>
                exists id :: Get(TableOf(db, table)[k], r.column) == Text(id) && [id] in TableOf(db, r.parent)
    {
      RefersIff(db, TableOf(db, table)[k], r);
    }
  }

  lemma TablesOfDb(db: Tables)
    ensures ForeignKeysHold(db) <==> forall table :: RowsRefer(db, table)
  {
    hide RowRefers;
    if forall table :: RowsRefer(db, table) {
      forall table, k | table in db && k in db[table] ensures RowRefers(db, table, db[table][k]) {
        assert RowsRefer(db, table) && TableOf(db, table) == db[table];
      }
    }
  }

  /** The foreign keys of the catalogue, column by column. */
  lemma ForeignKeysIff(db: Tables)
    ensures ForeignKeysHold(db) <==>
              && ColumnRefers(db, CapabilityDependencies, CapabilityId, Capabilities)
              && ColumnRefers(db, CapabilityDependencies, DependsOnId, Capabilities)
              && ColumnRefers(db, ProviderAdapters, ProviderId, Providers)
              && ColumnRefers(db, ProviderAdapters, CapabilityId, Capabilities)
              && ColumnRefers(db, AdapterFallbacks, AdapterId, ProviderAdapters)
              && ColumnRefers(db, AdapterFallbacks, FallbackAdapterId, ProviderAdapters)
  {
    TablesOfDb(db);
    TwoReferences(db, CapabilityDependencies, Reference(CapabilityId, Capabilities), Reference(DependsOnId, Capabilities));
    TwoReferences(db, ProviderAdapters, Reference(ProviderId, Providers), Reference(CapabilityId, Capabilities));
    TwoReferences(db, AdapterFallbacks, Reference(AdapterId, ProviderAdapters), Reference(FallbackAdapterId, ProviderAdapters));
    forall table: TableName | table !in {CapabilityDependencies, ProviderAdapters, AdapterFallbacks} ensures RowsRefer(db, table) {
      assert References(table) == [];
    }
    hide ColumnRefers, RowsRefer, ForeignKeysHold;
  }

  /** A write to a database that meets its constraints goes through exactly when the result meets them:
      the row refers to rows that are there and not to itself, and no other row has its unique value. */
  lemma UpsertIff(store: Storage, db: Tables, s: Statement)
    requires s.Upsert? && ForeignKeysHold(db) && UniqueTable(s.spec.name, TableOf(db, s.spec.name))
    ensures var rows := Effect(store, TableOf(db, s.spec.name), s);
            var next := db[s.spec.name := rows];
            if ForeignKeysHold(next) && UniqueTable(s.spec.name, rows) && !RefersToItself(s.spec.name, rows[s.key])
            then Exec(store, db, s) == Done(next) else Exec(store, db, s).Failed?
  {
    var name, cur := s.spec.name, TableOf(db, s.spec.name);
    var rows := Effect(store, cur, s);
    var next := db[name := rows];
    forall table, k | table in next && k in next[table] && !(table == name && k == s.key)
      ensures RowRefers(next, table, next[table][k])
    {
      assert RowRefers(db, table, db[table][k]);
      StillRefers(db, next, table, next[table][k]);
    }
    hide RowRefers, RefersToItself, SameUnique;
    assert s.key in rows && next[name][s.key] == rows[s.key];
    UniqueAfterWrite(name, cur, rows, s.key);
  }

  lemma StillRefers(db: Tables, next: Tables, table: TableName, row: Row)
    requires RowRefers(db, table, row) && forall name, k :: k in TableOf(db, name) ==> k in TableOf(next, name)
    ensures RowRefers(next, table, row)
  {
    forall r | r in References(table) ensures Refers(next, row, r) {
      assert Refers(db, row, r);
    }
  }

  lemma UniqueAfterWrite(name: TableName, cur: Table, rows: Table, key: Key)
    requires UniqueTable(name, cur) && key in rows && rows == cur[key := rows[key]]
    ensures UniqueTable(name, rows) <==> !Collides(name, rows, key)
  {
    if !Collides(name, rows, key) {
      forall k, k' | k in rows && k' in rows && k != k' ensures !SameUnique(name, rows[k], rows[k']) {
        if k == key {
          SameUniqueSymmetric(name, rows[k], rows[k']);
        }
      }
    }
  }

  // ---- Uniqueness is kept ------------------------------------------------------------------------------

  lemma ExecKeepsUnique(store: Storage, db: Tables, s: Statement, name: TableName)
    requires Enabled !in UniqueColumns(name)
    requires UniqueTable(name, TableOf(db, name)) && Exec(store, db, s).Done?
    ensures UniqueTable(name, TableOf(Exec(store, db, s).tables, name))
  {
    var rows := TableOf(db, s.spec.name);
    var after := Effect(store, rows, s);
    if s.spec.name == name {
      forall k, k' | k in after && k' in after && k != k' ensures !SameUnique(name, after[k], after[k']) {
        match s {
          case Upsert(_, key, _) =>
            assert !Collides(name, after, key);
            if k == key {
              assert !SameUnique(name, after[k'], after[k]);
              SameUniqueSymmetric(name, after[k], after[k']);
            }
          case DisableRow(_, key) =>
            forall c, x | c in UniqueColumns(name) && x in after ensures Get(after[x], c) == Get(rows[x], c) {
            }
            assert !SameUnique(name, rows[k], rows[k']);
          case DeleteRow(_, key) =>
        }
      }
    }
  }

  lemma SameUniqueSymmetric(name: TableName, a: Row, b: Row)
    ensures SameUnique(name, a, b) == SameUnique(name, b, a)
  {
  }

  lemma {:induction false} RunKeepsUnique(store: Storage, db: Tables, stmts: seq<Statement>, name: TableName)
    requires Enabled !in UniqueColumns(name)
    requires UniqueTable(name, TableOf(db, name)) && Run(store, db, stmts).Done?
    ensures UniqueTable(name, TableOf(Run(store, db, stmts).tables, name))
  {
    hide UniqueTable, Exec;
    if stmts != [] {
      RunKeepsUnique(store, db, stmts[..|stmts| - 1], name);
      ExecKeepsUnique(store, Run(store, db, stmts[..|stmts| - 1]).tables, stmts[|stmts| - 1], name);
    }
  }

  // ---- Who has to make way for whom ------------------------------------------------------------------------

  /** Row `y` is wanted where row `x` now stands. */
  predicate Meets(name: TableName, desired: map<Key, Row>, cur: Table, x: Key, y: Key) {
    x in cur && y in desired && x != y && SameUnique(name, cur[x], desired[y])
  }

  /** Creates run before updates, updates in the order of the desired rows, and removals last: `x` has
      moved when `y` is written exactly when both are updates and `x` comes first. */
  predicate MovesFirst(desired: Rows, cur: Table, x: Key, y: Key) {
    x in desired.order && y in desired.order && y in cur && IndexOf(desired.order, x) < IndexOf(desired.order, y)
  }

  ghost predicate InTurn(name: TableName, desired: Rows, cur: Table) {
    forall x, y :: Meets(name, desired.at, cur, x, y) ==> MovesFirst(desired, cur, x, y)
  }

  function Writes(spec: TableSpec, desired: Rows, current: Rows): seq<Key> {
    PlanFor(spec, desired, current).creates + PlanFor(spec, desired, current).updates
  }

  lemma UpdatesInOrder(spec: TableSpec, desired: Rows, current: Rows, i: nat, j: nat)
    requires desired.Valid()
    requires i < j < |PlanFor(spec, desired, current).updates|
    ensures var updates := PlanFor(spec, desired, current).updates;
            && updates[i] in desired.order && updates[j] in desired.order
            && IndexOf(desired.order, updates[i]) < IndexOf(desired.order, updates[j])
  {
    SelectedInOrder(desired.order, Changed(desired.at, current.at), i, j);
  }

  lemma PlaceAmongUpdates(spec: TableSpec, desired: Rows, current: Rows, y: Key) returns (q: nat)
    requires desired.Valid() && current.Valid() && y in Changed(desired.at, current.at)
    ensures q < |PlanFor(spec, desired, current).updates| && PlanFor(spec, desired, current).updates[q] == y
  {
    PlanKeys(spec, desired, current);
    var updates := PlanFor(spec, desired, current).updates;
    assert y in AsSet(updates);
    q :| 0 <= q < |updates| && updates[q] == y;
  }

  lemma CreatesAreNew(spec: TableSpec, desired: Rows, current: Rows, i: nat)
    requires desired.Valid() && current.Valid() && i < |PlanFor(spec, desired, current).creates|
    ensures PlanFor(spec, desired, current).creates[i] !in current.at
  {
    PlanKeys(spec, desired, current);
    assert PlanFor(spec, desired, current).creates[i] in AsSet(PlanFor(spec, desired, current).creates);
  }

  lemma UpdatesAreOld(spec: TableSpec, desired: Rows, current: Rows, i: nat)
    requires desired.Valid() && current.Valid() && i < |PlanFor(spec, desired, current).updates|
    ensures PlanFor(spec, desired, current).updates[i] in Changed(desired.at, current.at)
  {
    PlanKeys(spec, desired, current);
    assert PlanFor(spec, desired, current).updates[i] in AsSet(PlanFor(spec, desired, current).updates);
  }

  /** An update stands after all creates, among the updates. */
  lemma PlaceOfUpdate(spec: TableSpec, desired: Rows, current: Rows, j: nat)
    requires desired.Valid() && current.Valid()
    requires j < |Writes(spec, desired, current)| && Writes(spec, desired, current)[j] in current.at
    ensures var plan := PlanFor(spec, desired, current);
            && |plan.creates| <= j && j - |plan.creates| < |plan.updates|
            && plan.updates[j - |plan.creates|] == Writes(spec, desired, current)[j]
  {
    if j < |PlanFor(spec, desired, current).creates| {
      CreatesAreNew(spec, desired, current, j);
    }
  }

  /** A current row written before another one moves first. */
  lemma EarlierMovesFirst(spec: TableSpec, desired: Rows, current: Rows, p: nat, j: nat)
    requires desired.Valid() && current.Valid() && p < j < |Writes(spec, desired, current)|
    requires Writes(spec, desired, current)[p] in current.at
    ensures MovesFirst(desired, current.at, Writes(spec, desired, current)[p], Writes(spec, desired, current)[j])
  {
    PlaceOfUpdate(spec, desired, current, p);
    var plan := PlanFor(spec, desired, current);
    hide PlanFor;
    var n := |plan.creates|;
    assert Writes(spec, desired, current)[j] == plan.updates[j - n];
    UpdatesAreOld(spec, desired, current, j - n);
    UpdatesInOrder(spec, desired, current, p - n, j - n);
  }

  lemma UpdateBefore(spec: TableSpec, desired: Rows, current: Rows, p: nat, q: nat)
    requires desired.Valid() && current.Valid()
    requires var updates := PlanFor(spec, desired, current).updates;
             p < |updates| && q < |updates| && MovesFirst(desired, current.at, updates[p], updates[q])
    ensures p < q
  {
    if q < p {
      UpdatesInOrder(spec, desired, current, q, p);
    }
  }

  /** And a row that moves first is written before it, if it changes at all. */
  lemma FirstIsEarlier(spec: TableSpec, desired: Rows, current: Rows, x: Key, j: nat)
    requires desired.Valid() && current.Valid() && j < |Writes(spec, desired, current)|
    requires x in Changed(desired.at, current.at) && MovesFirst(desired, current.at, x, Writes(spec, desired, current)[j])
    ensures x in Writes(spec, desired, current)[..j]
  {
    PlaceOfUpdate(spec, desired, current, j);
    var p := PlaceAmongUpdates(spec, desired, current, x);
    var plan := PlanFor(spec, desired, current);
    hide PlanFor, Changed, MovesFirst;
    var n := |plan.creates|;
    UpdateBefore(spec, desired, current, p, j - n);
    assert (plan.creates + plan.updates)[n + p] == x;
  }

  /** An unchanged row keeps its unique value. */
  lemma SameOnUnique(name: TableName, row: Row, found: Row)
    requires !Differs(row, found)
    requires forall c :: c in UniqueColumns(name) ==> Get(row, c).Text? || Get(row, c).Int?
    ensures forall c :: c in UniqueColumns(name) ==> Get(row, c) == Get(found, c)
  {
    forall c | c in UniqueColumns(name) ensures Get(row, c) == Get(found, c) {
      assert c in row && Canon(row[c]) == Canon(Get(found, c));
    }
  }

  lemma MetIsWritten(name: TableName, desired: map<Key, Row>, cur: Table, x: Key, y: Key)
    requires UniqueRows(name, desired) && UniqueTable(name, cur) && Meets(name, desired, cur, x, y)
    ensures y in Missing(desired, cur) + Changed(desired, cur)
  {
    if y in cur && !Differs(desired[y], cur[y]) {
      SameOnUnique(name, desired[y], cur[y]);
    }
  }

  lemma MeetingIsChanged(name: TableName, desired: map<Key, Row>, cur: Table, x: Key, y: Key)
    requires UniqueRows(name, desired) && Meets(name, desired, cur, x, y) && x in desired
    ensures x in Changed(desired, cur)
  {
    if !Differs(desired[x], cur[x]) {
      SameOnUnique(name, desired[x], cur[x]);
    }
  }

  lemma PlaceAmongWrites(spec: TableSpec, desired: Rows, current: Rows, y: Key) returns (j: nat)
    requires desired.Valid() && current.Valid()
    requires y in Missing(desired.at, current.at) + Changed(desired.at, current.at)
    ensures j < |Writes(spec, desired, current)| && Writes(spec, desired, current)[j] == y
  {
    var plan := PlanFor(spec, desired, current);
    if y in Changed(desired.at, current.at) {
      var q := PlaceAmongUpdates(spec, desired, current, y);
      j := |plan.creates| + q;
    } else {
      PlanKeys(spec, desired, current);
      assert y in AsSet(plan.creates);
      j :| 0 <= j < |plan.creates| && plan.creates[j] == y;
    }
  }

  /** In turn, the path is clear. */
  lemma InTurnIsClear(spec: TableSpec, desired: Rows, current: Rows)
    requires desired.Valid() && current.Valid() && UniqueRows(spec.name, desired.at)
    requires InTurn(spec.name, desired, current.at)
    ensures ClearPath(spec.name, desired.at, current.at, Writes(spec, desired, current))
  {
    var writes := Writes(spec, desired, current);
    WritesOfPlan(spec, desired, current);
    hide SameUnique, UniqueRows, Writes, Missing, Changed, MovesFirst;
    forall j, x | 0 <= j < |writes| && x in current.at && x != writes[j] && SameUnique(spec.name, current.at[x], Wanted(desired.at, writes[j]))
      ensures x in writes[..j]
    {
      assert writes[j] in writes;
      assert Meets(spec.name, desired.at, current.at, x, writes[j]);
      InDesired(desired, current.at, x, writes[j]);
      MeetingIsChanged(spec.name, desired.at, current.at, x, writes[j]);
      FirstIsEarlier(spec, desired, current, x, j);
    }
  }

  lemma InDesired(desired: Rows, cur: Table, x: Key, y: Key)
    requires desired.Valid() && MovesFirst(desired, cur, x, y)
    ensures x in desired.at
  {
  }

  /** Out of turn, the write of `y` finds `x` where it stood. */
  lemma ClearIsInTurn(spec: TableSpec, desired: Rows, current: Rows, x: Key, y: Key)
    requires desired.Valid() && current.Valid()
    requires UniqueRows(spec.name, desired.at) && UniqueTable(spec.name, current.at)
    requires ClearPath(spec.name, desired.at, current.at, Writes(spec, desired, current))
    requires Meets(spec.name, desired.at, current.at, x, y)
    ensures MovesFirst(desired, current.at, x, y)
  {
    MetIsWritten(spec.name, desired.at, current.at, x, y);
    var j := PlaceAmongWrites(spec, desired, current, y);
    var writes := Writes(spec, desired, current);
    hide UniqueRows, UniqueTable, SameUnique, Writes, Missing, Changed, MovesFirst;
    assert ClearAt(spec.name, desired.at, current.at, writes, j);
    var p :| 0 <= p < j && writes[p] == x;
    EarlierMovesFirst(spec, desired, current, p, j);
  }

  /** A table's path is clear exactly when every row that has to make way moves first. */
  lemma ClearIff(spec: TableSpec, desired: Rows, current: Rows)
    requires desired.Valid() && current.Valid()
    requires UniqueRows(spec.name, desired.at) && UniqueTable(spec.name, current.at)
    ensures ClearPath(spec.name, desired.at, current.at, Writes(spec, desired, current)) <==> InTurn(spec.name, desired, current.at)
  {
    if InTurn(spec.name, desired, current.at) {
      InTurnIsClear(spec, desired, current);
    }
    hide InTurn, UniqueRows, UniqueTable, Meets, MovesFirst, ClearPath;
    if ClearPath(spec.name, desired.at, current.at, Writes(spec, desired, current)) {
      forall x, y | Meets(spec.name, desired.at, current.at, x, y) ensures MovesFirst(desired, current.at, x, y) {
        ClearIsInTurn(spec, desired, current, x, y);
      }
      AllInTurn(spec.name, desired, current.at);
    }
  }

  lemma AllInTurn(name: TableName, desired: Rows, cur: Table)
    requires forall x, y :: Meets(name, desired.at, cur, x, y) ==> MovesFirst(desired, cur, x, y)
    ensures InTurn(name, desired, cur)
  {
  }

  // ---- Whole seeds -----------------------------------------------------------------------------------------

  ghost predicate AllInTurnIn(specs: seq<TableSpec>, desired: Snapshot, db: Tables) {
    forall i :: 0 <= i < |specs| ==> InTurn(specs[i].name, RowsOf(desired, specs[i].name), TableOf(db, specs[i].name))
  }

  lemma TableClearIff(specs: seq<TableSpec>, store: Storage, desired: Snapshot, current: Snapshot, db: Tables, i: nat)
    requires SeedSetting(specs, store, desired, current, db) && UniqueDesired(specs, desired) && UniqueTables(specs, db)
    requires i < |specs|
    ensures TableClear(specs[i], desired, current)
       <==> InTurn(specs[i].name, RowsOf(desired, specs[i].name), TableOf(db, specs[i].name))
  {
    hide InTurn, ClearPath;
    ClearIff(specs[i], RowsOf(desired, specs[i].name), RowsOf(current, specs[i].name));
  }

  /** A seed goes through exactly when in every table each row that has to make way moves first, and
      otherwise stops at a duplicate. The condition reads only the desired rows and the database. */
  lemma {:induction false} SeedInTurnIff(specs: seq<TableSpec>, store: Storage, desired: Snapshot, current: Snapshot, db: Tables)
    requires SeedSetting(specs, store, desired, current, db) && UniqueDesired(specs, desired) && UniqueTables(specs, db)
    ensures Run(store, db, StatementsFor(specs, desired, current))
         == if AllInTurnIn(specs, desired, db) then Done(AfterSeed(specs, store, desired, db)) else Failed(Duplicate)
  {
    var stmts := StatementsFor(specs, desired, current);
    forall i | 0 <= i < |specs|
      ensures TableClear(specs[i], desired, current)
         <==> InTurn(specs[i].name, RowsOf(desired, specs[i].name), TableOf(db, specs[i].name))
    {
      TableClearIff(specs, store, desired, current, db, i);
    }
    hide TableClear, InTurn, Run, StatementsFor, SeedSetting, UniqueDesired, UniqueTables, ForeignKeysHold;
    SeedSucceedsIff(specs, store, desired, current, db);
    ForeignKeysAlwaysHold(specs, store, desired, current, db, |stmts|);
    assert stmts[..|stmts|] == stmts;
    SettingRuns(specs, store, desired, current, db);
  }

  /** A new row never goes in while a row that is no longer desired holds its unique value: a renamed
      adapter meets its old self, which is disabled and kept, and the seed fails. */
  lemma {:induction false} StaleHolderBlocks(specs: seq<TableSpec>, store: Storage, desired: Snapshot, current: Snapshot, db: Tables,
                          i: nat, stale: Key, wanted: Key)
    requires SeedSetting(specs, store, desired, current, db) && UniqueDesired(specs, desired) && UniqueTables(specs, db)
    requires i < |specs| && Meets(specs[i].name, RowsOf(desired, specs[i].name).at, TableOf(db, specs[i].name), stale, wanted)
    requires stale !in RowsOf(desired, specs[i].name).at
    ensures Run(store, db, StatementsFor(specs, desired, current)) == Failed(Duplicate)
  {
    SeedInTurnIff(specs, store, desired, current, db);
    assert !MovesFirst(RowsOf(desired, specs[i].name), TableOf(db, specs[i].name), stale, wanted);
  }
}
