/** Foreign keys and self-reference checks during a seed: they hold after every statement. */
module SeedConstraints {
  import opened Values
  import opened SeedPlan
  import opened SeedApply
  import opened SeedConvergence
  import opened SeedCatalogue

  predicate IsParent(table: TableName) {
    table == Capabilities || table == Providers || table == ProviderAdapters
  }

  /** Specs whose referenced tables come earlier and never lose a row. */
  ghost predicate GoodSchema(specs: seq<TableSpec>) {
    && DistinctNames(specs)
    && (forall i :: 0 <= i < |specs| ==> Enabled !in specs[i].key)
    && (forall i :: 0 <= i < |specs| && specs[i].removal.Delete? ==> !IsParent(specs[i].name))
    && (forall i, r :: 0 <= i < |specs| && r in References(specs[i].name) ==> HasTable(specs[..i], r.parent))
  }

  ghost predicate HasTable(specs: seq<TableSpec>, name: TableName) {
    exists j :: 0 <= j < |specs| && specs[j].name == name
  }

  lemma NamesAreDistinct()
    ensures DistinctNames(TABLE_SPECS)
  {
  }

  lemma ParentsComeFirst(i: nat, r: Reference)
    requires i < |TABLE_SPECS| && r in References(TABLE_SPECS[i].name)
    ensures HasTable(TABLE_SPECS[..i], r.parent)
  {
    var before := TABLE_SPECS[..i];
    if i == 1 {
      assert before[0].name == r.parent;
    } else if i == 3 {
      assert before[0].name == r.parent || before[2].name == r.parent;
    } else {
      assert i == 4 && before[3].name == r.parent;
    }
  }

  /** The catalogue's own table specs are in dependency order. */
  lemma SchemaIsGood()
    ensures GoodSchema(TABLE_SPECS)
  {
    NamesAreDistinct();
    forall i, r | 0 <= i < |TABLE_SPECS| && r in References(TABLE_SPECS[i].name)
      ensures HasTable(TABLE_SPECS[..i], r.parent)
    {
      ParentsComeFirst(i, r);
    }
  }

  /** Every reference of a desired row is to a desired row, and none is to the row itself. */
  ghost predicate RowClosed(desired: Snapshot, table: TableName, row: Row) {
    && !RefersToItself(table, row)
    && forall r :: r in References(table) ==>
         Get(row, r.column).Text? && [Get(row, r.column).s] in RowsOf(desired, r.parent).at
  }

  ghost predicate ClosedDesired(specs: seq<TableSpec>, desired: Snapshot) {
    forall i, k :: 0 <= i < |specs| && k in RowsOf(desired, specs[i].name).at ==>
      RowClosed(desired, specs[i].name, RowsOf(desired, specs[i].name).at[k])
  }

  ghost predicate ParentsGrow(db: Tables, later: Tables) {
    forall p :: IsParent(p) ==> TableOf(db, p).Keys <= TableOf(later, p).Keys
  }

  lemma ReferencesShape(table: TableName)
    ensures forall r :: r in References(table) ==> IsParent(r.parent) && r.parent != table && r.column != Enabled
  {
  }

  lemma RefersGrows(db: Tables, later: Tables, table: TableName, row: Row)
    requires RowRefers(db, table, row) && ParentsGrow(db, later)
    ensures RowRefers(later, table, row)
  {
    ReferencesShape(table);
  }

  /** What the constraints look at is text, and a write that keeps canonical values keeps text. */
  lemma WrittenText(store: Storage, spec: TableSpec, cur: Table, k: Key, row: Row, c: Column)
    requires RowKeyed(spec, k, row) && WellKeyed(spec, cur) && KeptByStorage(store, spec, cur, k, row)
    requires Get(row, c).Text? || Get(row, c).Int?
    ensures Get(NewRow(store, spec, cur, k, row), c) == Get(row, c)
  {
    WrittenRowMatches(store, spec, cur, k, row);
    assert c in row && Canon(row[c]) == Canon(Get(NewRow(store, spec, cur, k, row), c));
  }

  lemma WrittenRowRefers(store: Storage, db: Tables, desired: Snapshot, spec: TableSpec, cur: Table, k: Key, row: Row)
    requires RowKeyed(spec, k, row) && WellKeyed(spec, cur) && KeptByStorage(store, spec, cur, k, row)
    requires RowClosed(desired, spec.name, row) && RowRefers(db, spec.name, row)
    ensures RowRefers(db, spec.name, NewRow(store, spec, cur, k, row))
    ensures !RefersToItself(spec.name, NewRow(store, spec, cur, k, row))
  {
    forall r | r in References(spec.name) ensures Get(NewRow(store, spec, cur, k, row), r.column) == Get(row, r.column) {
      WrittenText(store, spec, cur, k, row, r.column);
    }
    if spec.name == CapabilityDependencies {
      assert Reference(CapabilityId, Capabilities) in References(spec.name);
      assert Reference(DependsOnId, Capabilities) in References(spec.name);
    } else if spec.name == AdapterFallbacks {
      assert Reference(AdapterId, ProviderAdapters) in References(spec.name);
      assert Reference(FallbackAdapterId, ProviderAdapters) in References(spec.name);
    }
  }

  ghost predicate StepState(spec: TableSpec, start: Tables, now: Tables) {
    && ForeignKeysHold(now) && ParentsGrow(start, now)
    && spec.name in now && WellKeyed(spec, now[spec.name])
  }

  lemma StepStateHasTable(spec: TableSpec, start: Tables, now: Tables)
    requires StepState(spec, start, now)
    ensures spec.name in now
  {
  }

  lemma UpsertKeeps(store: Storage, desired: Snapshot, spec: TableSpec, start: Tables, now: Tables, k: Key, row: Row)
    requires StepState(spec, start, now)
    requires RowKeyed(spec, k, row) && KeptByStorage(store, spec, now[spec.name], k, row)
    requires RowClosed(desired, spec.name, row) && RowRefers(start, spec.name, row)
    ensures match Exec(store, now, Upsert(spec, k, row))
            case Failed(v) => v == Duplicate
            case Done(then_) => StepState(spec, start, then_)
  {
    var cur := now[spec.name];
    var written := NewRow(store, spec, cur, k, row);
    var rows := cur[k := written];
    var then_ := now[spec.name := rows];
    RefersGrows(start, now, spec.name, row);
    WrittenRowRefers(store, now, desired, spec, cur, k, row);
    assert ParentsGrow(now, then_);
    WrittenRowMatches(store, spec, cur, k, row);
    KeyedByContent(spec, k, row, written);
    forall table, key | table in then_ && key in then_[table] ensures RowRefers(then_, table, then_[table][key]) {
      if table == spec.name && key == k {
        RefersGrows(now, then_, table, written);
      } else {
        assert then_[table][key] == now[table][key];
        RefersGrows(now, then_, table, now[table][key]);
      }
    }
  }

  /** A removal leaves the columns that constraints look at as they are. */
  lemma RemovalShape(store: Storage, spec: TableSpec, rows: Table, s: Statement, key: Key)
    requires !s.Upsert? && key in Effect(store, rows, s)
    ensures key in rows && forall c :: c != Enabled ==> Get(Effect(store, rows, s)[key], c) == Get(rows[key], c)
  {
  }

  lemma SameReferences(db: Tables, table: TableName, row: Row, other: Row)
    requires RowRefers(db, table, row) && forall c :: c != Enabled ==> Get(other, c) == Get(row, c)
    ensures RowRefers(db, table, other)
  {
    ReferencesShape(table);
  }

  lemma RemovalKeeps(store: Storage, spec: TableSpec, start: Tables, now: Tables, s: Statement)
    requires StepState(spec, start, now)
    requires s.spec == spec && !s.Upsert? && (s.DeleteRow? ==> !IsParent(spec.name)) && Enabled !in spec.key
    ensures Exec(store, now, s).Done? && StepState(spec, start, Exec(store, now, s).tables)
  {
    var rows := Effect(store, now[spec.name], s);
    var then_ := now[spec.name := rows];
    assert ParentsGrow(now, then_);
    forall key | key in rows ensures RowKeyed(spec, key, rows[key]) {
      RemovalShape(store, spec, now[spec.name], s, key);
      assert RowKeyed(spec, key, now[spec.name][key]);
    }
    hide RowRefers, Get, References;
    forall table, key | table in then_ && key in then_[table] ensures RowRefers(then_, table, then_[table][key]) {
      if table == spec.name {
        RemovalShape(store, spec, now[spec.name], s, key);
        SameReferences(now, table, now[table][key], rows[key]);
      }
      RefersGrows(now, then_, table, then_[table][key]);
    }
  }

  /** A statement of a table's plan is one of the three kinds, on rows of that table. */
  predicate FitsPlan(spec: TableSpec, desired: Rows, s: Statement) {
    && s.spec == spec
    && (s.Upsert? ==> s.key in desired.at && s.row == desired.at[s.key])
    && (s.DeleteRow? ==> spec.removal.Delete?)
  }

  lemma StatementShape(spec: TableSpec, desired: Rows, current: Rows, i: nat)
    requires desired.Valid() && current.Valid()
    requires i < |TableStatements(PlanFor(spec, desired, current))|
    ensures FitsPlan(spec, desired, TableStatements(PlanFor(spec, desired, current))[i])
  {
    var plan := PlanFor(spec, desired, current);
    var writes := plan.creates + plan.updates;
    WritesOfPlan(spec, desired, current);
    if i < |writes| {
      assert writes[i] in writes;
    }
  }

  /** A table whose desired rows are closed and refer to rows that are there. */
  ghost predicate TablePlanSetting(store: Storage, snapshot: Snapshot, spec: TableSpec, desired: Rows, current: Rows, db: Tables) {
    && desired.Valid() && current.Valid()
    && WellKeyed(spec, desired.at) && Faithful(store, spec, desired.at)
    && StepState(spec, db, db) && Enabled !in spec.key && (spec.removal.Delete? ==> !IsParent(spec.name))
    && forall k :: k in desired.at ==>
         RowClosed(snapshot, spec.name, desired.at[k]) && RowRefers(db, spec.name, desired.at[k])
  }

  ghost predicate TableOutcome(spec: TableSpec, db: Tables, r: Result) {
    match r
    case Failed(v) => v == Duplicate
    case Done(now) => StepState(spec, db, now)
  }

  lemma StatementKeeps(store: Storage, snapshot: Snapshot, spec: TableSpec, desired: Rows, current: Rows, db: Tables,
                       s: Statement, now: Tables)
    requires TablePlanSetting(store, snapshot, spec, desired, current, db) && StepState(spec, db, now)
    requires FitsPlan(spec, desired, s)
    ensures TableOutcome(spec, db, Exec(store, now, s))
  {
    hide Exec, RowClosed, RowRefers, StepState;
    if s.Upsert? {
      StepStateHasTable(spec, db, now);
      UpsertKeeps(store, snapshot, spec, db, now, s.key, s.row);
    } else {
      RemovalKeeps(store, spec, db, now, s);
    }
  }

  lemma {:induction false} StatementsKeep(store: Storage, snapshot: Snapshot, spec: TableSpec, desired: Rows,
                                          current: Rows, db: Tables, stmts: seq<Statement>)
    requires TablePlanSetting(store, snapshot, spec, desired, current, db)
    requires forall s :: s in stmts ==> FitsPlan(spec, desired, s)
    ensures TableOutcome(spec, db, Run(store, db, stmts))
  {
    if stmts != [] {
      hide StepState, TablePlanSetting, Exec, FitsPlan;
      var front, last := stmts[..|stmts| - 1], stmts[|stmts| - 1];
      StatementsKeep(store, snapshot, spec, desired, current, db, front);
      if Run(store, db, front).Done? {
        StatementKeeps(store, snapshot, spec, desired, current, db, last, Run(store, db, front).tables);
      }
    }
  }

  /** At every point of a table's plan no statement has failed but for a duplicate, and the foreign
      keys hold. */
  lemma {:induction false} TableKeepsForeignKeys(store: Storage, snapshot: Snapshot, spec: TableSpec, desired: Rows,
                              current: Rows, db: Tables, n: nat)
    requires TablePlanSetting(store, snapshot, spec, desired, current, db)
    requires n <= |TableStatements(PlanFor(spec, desired, current))|
    ensures TableOutcome(spec, db, Run(store, db, TableStatements(PlanFor(spec, desired, current))[..n]))
  {
    var stmts := TableStatements(PlanFor(spec, desired, current));
    forall s | s in stmts[..n] ensures FitsPlan(spec, desired, s) {
      var i :| 0 <= i < n && stmts[i] == s;
      StatementShape(spec, desired, current, i);
    }
    StatementsKeep(store, snapshot, spec, desired, current, db, stmts[..n]);
  }

  lemma {:induction false} DesiredParentsPresent(specs: seq<TableSpec>, store: Storage, desired: Snapshot, db: Tables, i: nat, row: Row)
    requires i < |specs| && GoodSchema(specs)
    requires RowClosed(desired, specs[i].name, row)
    ensures RowRefers(AfterSeed(specs[..i], store, desired, db), specs[i].name, row)
  {
    var before := specs[..i];
    forall r | r in References(specs[i].name)
      ensures Refers(AfterSeed(before, store, desired, db), row, r)
    {
      var j :| 0 <= j < |before| && before[j].name == r.parent;
      ReferencesShape(specs[i].name);
      assert specs[j] == before[j] && !specs[j].removal.Delete?;
      AfterSeedTable(before, store, desired, db, j);
    }
  }

  /** A seed of a closed desired state into a database whose foreign keys hold. */
  ghost predicate SeedSetting(specs: seq<TableSpec>, store: Storage, desired: Snapshot, current: Snapshot, db: Tables) {
    && GoodSchema(specs) && ValidDesired(specs, desired) && ClosedDesired(specs, desired)
    && FaithfulStorage(specs, store, desired)
    && Reads(specs, current, db) && KeyedDatabase(specs, db) && ForeignKeysHold(db)
  }

  ghost predicate OnlyDuplicates(r: Result) {
    match r
    case Failed(v) => v == Duplicate
    case Done(now) => ForeignKeysHold(now)
  }

  lemma PrefixSchema(specs: seq<TableSpec>)
    requires specs != [] && GoodSchema(specs)
    ensures GoodSchema(specs[..|specs| - 1])
  {
    hide References;
    var front := specs[..|specs| - 1];
    assert forall i :: 0 <= i < |front| ==> front[i] == specs[i];
    forall i, r | 0 <= i < |front| && r in References(front[i].name) ensures HasTable(front[..i], r.parent) {
      assert front[i] == specs[i] && front[..i] == specs[..i];
    }
  }

  lemma PrefixSetting(specs: seq<TableSpec>, store: Storage, desired: Snapshot, current: Snapshot, db: Tables)
    requires specs != [] && SeedSetting(specs, store, desired, current, db)
    ensures SeedSetting(specs[..|specs| - 1], store, desired, current, db)
  {
    PrefixSchema(specs);
    hide GoodSchema, Faithful, WellKeyed, RowClosed, ForeignKeysHold;
    var front := specs[..|specs| - 1];
    assert forall i :: 0 <= i < |front| ==> front[i] == specs[i];
  }

  lemma {:induction false} LastTableKeeps(specs: seq<TableSpec>, store: Storage, desired: Snapshot, current: Snapshot, db: Tables, n: nat)
    requires specs != [] && SeedSetting(specs, store, desired, current, db)
    requires n <= |TableStatements(PlanOf(specs[|specs| - 1], desired, current))|
    requires ForeignKeysHold(AfterSeed(specs[..|specs| - 1], store, desired, db))
    ensures OnlyDuplicates(Run(store, AfterSeed(specs[..|specs| - 1], store, desired, db),
                               TableStatements(PlanOf(specs[|specs| - 1], desired, current))[..n]))
  {
    var i := |specs| - 1;
    var spec, now := specs[i], AfterSeed(specs[..i], store, desired, db);
    var wanted, found := RowsOf(desired, spec.name), RowsOf(current, spec.name);
    UntouchedYet(specs, store, desired, db);
    forall k | k in wanted.at ensures RowClosed(desired, spec.name, wanted.at[k]) && RowRefers(now, spec.name, wanted.at[k]) {
      DesiredParentsPresent(specs, store, desired, db, i, wanted.at[k]);
    }
    TableKeepsForeignKeys(store, desired, spec, wanted, found, now, n);
  }

  lemma {:induction false} RunOfPrefix(store: Storage, db: Tables, a: seq<Statement>, b: seq<Statement>, n: nat)
    requires n <= |a| + |b|
    ensures n <= |a| ==> Run(store, db, (a + b)[..n]) == Run(store, db, a[..n])
    ensures n > |a| ==>
              Run(store, db, (a + b)[..n])
              == (match Run(store, db, a[..|a|]) case Failed(v) => Failed(v) case Done(so) => Run(store, so, b[..n - |a|]))
  {
    assert a[..|a|] == a;
    if n <= |a| {
      assert (a + b)[..n] == a[..n];
    } else {
      assert (a + b)[..n] == a + b[..n - |a|];
      RunAppend(store, db, a, b[..n - |a|]);
    }
  }

  /** What a setting gives without looking inside it. */
  lemma {:induction false} SettingRuns(specs: seq<TableSpec>, store: Storage, desired: Snapshot, current: Snapshot, db: Tables)
    requires SeedSetting(specs, store, desired, current, db)
    ensures var result := Run(store, db, StatementsFor(specs, desired, current));
            result.Done? ==> result.tables == AfterSeed(specs, store, desired, db)
    ensures ForeignKeysHold(db)
  {
    if Run(store, db, StatementsFor(specs, desired, current)).Done? {
      SeedRuns(specs, store, desired, current, db);
    }
  }

  lemma {:induction false} LastStatementsHold(specs: seq<TableSpec>, store: Storage, desired: Snapshot, current: Snapshot, db: Tables, n: nat)
    requires specs != [] && SeedSetting(specs, store, desired, current, db)
    requires var front := StatementsFor(specs[..|specs| - 1], desired, current);
             && |front| < n <= |StatementsFor(specs, desired, current)|
             && OnlyDuplicates(Run(store, db, front[..|front|]))
    ensures OnlyDuplicates(Run(store, db, StatementsFor(specs, desired, current)[..n]))
  {
    hide *;
    var front, spec := specs[..|specs| - 1], specs[|specs| - 1];
    var before, own := StatementsFor(front, desired, current), TableStatements(PlanOf(spec, desired, current));
    StatementsSplit(specs, desired, current);
    PrefixSetting(specs, store, desired, current, db);
    assert before[..|before|] == before;
    RunOfPrefix(store, db, before, own, n);
    SettingRuns(front, store, desired, current, db);
    if Run(store, db, before).Done? {
      DoneHolds(Run(store, db, before));
      LastTableKeeps(specs, store, desired, current, db, n - |before|);
    }
  }

  lemma DoneHolds(r: Result)
    requires OnlyDuplicates(r) && r.Done?
    ensures ForeignKeysHold(r.tables)
  {
  }

  lemma {:induction false} FrontStatements(specs: seq<TableSpec>, desired: Snapshot, current: Snapshot, n: nat)
    requires specs != []
    ensures var front := StatementsFor(specs[..|specs| - 1], desired, current);
            n <= |front| ==> n <= |StatementsFor(specs, desired, current)| && StatementsFor(specs, desired, current)[..n] == front[..n]
  {
  }

  /** After every single statement of a seed every foreign key holds; the only way a statement can
      fail is a duplicate under a unique constraint. */
  lemma {:induction false} ForeignKeysAlwaysHold(specs: seq<TableSpec>, store: Storage, desired: Snapshot,
                                                 current: Snapshot, db: Tables, n: nat)
    requires SeedSetting(specs, store, desired, current, db)
    requires n <= |StatementsFor(specs, desired, current)|
    ensures OnlyDuplicates(Run(store, db, StatementsFor(specs, desired, current)[..n]))
  {
    if specs == [] {
      SettingRuns(specs, store, desired, current, db);
    } else {
      hide SeedSetting, StatementsFor, Run, OnlyDuplicates;
      PrefixSetting(specs, store, desired, current, db);
      FrontStatements(specs, desired, current, n);
      var front := specs[..|specs| - 1];
      var before := StatementsFor(front, desired, current);
      ForeignKeysAlwaysHold(front, store, desired, current, db, if n <= |before| then n else |before|);
      if n > |before| {
        LastStatementsHold(specs, store, desired, current, db, n);
      }
    }
  }
}
