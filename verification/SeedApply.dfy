/** Applying a plan statement by statement to a database that enforces its constraints. */
module SeedApply {
  import opened Common
  import opened Values
  import opened SeedPlan

  type Table = map<Key, Row>
  type Tables = map<TableName, Table>

  /** What a column keeps of a value written to it: table, column, value. */
  type Storage = (TableName, Column, Value) -> Value

  datatype Statement =
    | Upsert(spec: TableSpec, key: Key, row: Row)
    | DisableRow(spec: TableSpec, key: Key)
    | DeleteRow(spec: TableSpec, key: Key)

  datatype Violation = ForeignKey | SelfReference | Duplicate

  datatype Result = Done(tables: Tables) | Failed(violation: Violation)

  function TableOf(db: Tables, name: TableName): Table {
    if name in db then db[name] else map[]
  }

  // ---- Constraints of the catalogue tables ---------------------------------------------------------

  datatype Reference = Reference(column: Column, parent: TableName)

  function References(table: TableName): seq<Reference> {
    if table == CapabilityDependencies then
      [Reference(CapabilityId, Capabilities), Reference(DependsOnId, Capabilities)]
    else if table == ProviderAdapters then
      [Reference(ProviderId, Providers), Reference(CapabilityId, Capabilities)]
    else if table == AdapterFallbacks then
      [Reference(AdapterId, ProviderAdapters), Reference(FallbackAdapterId, ProviderAdapters)]
    else []
  }

  predicate Refers(db: Tables, row: Row, r: Reference) {
    Get(row, r.column).Text? && [Get(row, r.column).s] in TableOf(db, r.parent)
  }

  predicate RowRefers(db: Tables, table: TableName, row: Row) {
    forall r :: r in References(table) ==> Refers(db, row, r)
  }

  ghost predicate ForeignKeysHold(db: Tables) {
    forall table, k :: table in db && k in db[table] ==> RowRefers(db, table, db[table][k])
  }

  predicate RefersToItself(table: TableName, row: Row) {
    (table == CapabilityDependencies && Get(row, CapabilityId) == Get(row, DependsOnId)) ||
    (table == AdapterFallbacks && Get(row, AdapterId) == Get(row, FallbackAdapterId))
  }

  /** The columns of the unique constraint a table has besides its primary key. */
  function UniqueColumns(table: TableName): seq<Column> {
    if table == ProviderAdapters then [ProviderId, CapabilityId]
    else if table == AdapterFallbacks then [AdapterId, Ordinal]
    else []
  }

  predicate SameUnique(table: TableName, a: Row, b: Row) {
    UniqueColumns(table) != [] && forall c :: c in UniqueColumns(table) ==> Get(a, c) == Get(b, c)
  }

  predicate Collides(table: TableName, rows: Table, key: Key) {
    key in rows && exists k :: k in rows && k != key && SameUnique(table, rows[k], rows[key])
  }

  // ---- Statements ------------------------------------------------------------------------------------

  function Stored(store: Storage, table: TableName, row: Row): Row {
    map c | c in row :: store(table, c, row[c])
  }

  function StoredNonKey(store: Storage, spec: TableSpec, row: Row): Row {
    map c | c in row && c !in spec.key :: store(spec.name, c, row[c])
  }

  /** INSERT ... ON CONFLICT (key) DO UPDATE: a conflict rewrites the non-key columns. */
  function NewRow(store: Storage, spec: TableSpec, rows: Table, key: Key, row: Row): Row {
    if key in rows then rows[key] + StoredNonKey(store, spec, row) else Stored(store, spec.name, row)
  }

  function Effect(store: Storage, rows: Table, s: Statement): Table {
    match s
    case Upsert(spec, key, row) => rows[key := NewRow(store, spec, rows, key, row)]
    case DisableRow(_, key) => if key in rows then rows[key := rows[key][Enabled := Bool(false)]] else rows
    case DeleteRow(_, key) => rows - {key}
  }

  function Exec(store: Storage, db: Tables, s: Statement): Result {
    var rows := Effect(store, TableOf(db, s.spec.name), s);
    var db' := db[s.spec.name := rows];
    if s.Upsert? && RefersToItself(s.spec.name, rows[s.key]) then Failed(SelfReference)
    else if s.Upsert? && !RowRefers(db', s.spec.name, rows[s.key]) then Failed(ForeignKey)
    else if s.Upsert? && Collides(s.spec.name, rows, s.key) then Failed(Duplicate)
    else Done(db')
  }

  function Run(store: Storage, db: Tables, stmts: seq<Statement>): Result {
    if stmts == [] then Done(db)
    else
      match Run(store, db, stmts[..|stmts| - 1])
      case Failed(v) => Failed(v)
      case Done(so) => Exec(store, so, stmts[|stmts| - 1])
  }

  lemma {:induction false} RunAppend(store: Storage, db: Tables, a: seq<Statement>, b: seq<Statement>)
    ensures Run(store, db, a + b) ==
            match Run(store, db, a) case Failed(v) => Failed(v) case Done(so) => Run(store, so, b)
  {
    if b == [] {
      assert a + b == a;
    } else {
      assert (a + b)[..|a + b| - 1] == a + b[..|b| - 1];
      RunAppend(store, db, a, b[..|b| - 1]);
    }
  }

  // ---- The statements of a plan ------------------------------------------------------------------------

  function Wanted(rows: map<Key, Row>, k: Key): Row {
    if k in rows then rows[k] else map[]
  }

  function Upserts(spec: TableSpec, rows: map<Key, Row>, keys: seq<Key>): seq<Statement> {
    seq(|keys|, i requires 0 <= i < |keys| => Upsert(spec, keys[i], Wanted(rows, keys[i])))
  }

  function Disables(spec: TableSpec, keys: seq<Key>): seq<Statement> {
    seq(|keys|, i requires 0 <= i < |keys| => DisableRow(spec, keys[i]))
  }

  function Deletes(spec: TableSpec, keys: seq<Key>): seq<Statement> {
    seq(|keys|, i requires 0 <= i < |keys| => DeleteRow(spec, keys[i]))
  }

  function TableStatements(plan: TablePlan): seq<Statement> {
    Upserts(plan.spec, plan.rows, plan.creates + plan.updates)
    + (Disables(plan.spec, plan.disables) + Deletes(plan.spec, plan.deletes))
  }

  // ---- One table: what its statements leave behind -------------------------------------------------------

  /** The table once the desired rows in `written` have been upserted. */
  function Written(store: Storage, spec: TableSpec, rows: map<Key, Row>, cur: Table, written: set<Key>): Table
    requires written <= rows.Keys
  {
    map k | k in cur.Keys + written :: if k in written then NewRow(store, spec, cur, k, rows[k]) else cur[k]
  }

  function Disabled(cur: Table, keys: set<Key>): Table {
    map k | k in cur :: if k in keys then cur[k][Enabled := Bool(false)] else cur[k]
  }

  /** The table a complete plan leaves, row by row. */
  function AfterTable(store: Storage, spec: TableSpec, desired: map<Key, Row>, cur: Table): Table {
    map k | k in cur.Keys + desired.Keys && (k in desired || !spec.removal.Delete?) ::
      if k in desired then
        if k in cur && !Differs(desired[k], cur[k]) then cur[k] else NewRow(store, spec, cur, k, desired[k])
      else if spec.removal.Disable? && IsActive(cur[k]) then cur[k][Enabled := Bool(false)]
      else cur[k]
  }

  lemma ExecDone(store: Storage, db: Tables, s: Statement)
    ensures var rows := Effect(store, TableOf(db, s.spec.name), s);
            && (Exec(store, db, s).Done? ==> Exec(store, db, s).tables == db[s.spec.name := rows])
            && (!s.Upsert? ==> Exec(store, db, s).Done?)
  {
  }

  lemma WrittenNext(store: Storage, spec: TableSpec, rows: map<Key, Row>, cur: Table, written: set<Key>, k: Key)
    requires written <= rows.Keys && k in rows && k !in written
    ensures Effect(store, Written(store, spec, rows, cur, written), Upsert(spec, k, rows[k]))
         == Written(store, spec, rows, cur, written + {k})
  {
    var before := Written(store, spec, rows, cur, written);
    assert k in before <==> k in cur;
    assert NewRow(store, spec, before, k, rows[k]) == NewRow(store, spec, cur, k, rows[k]);
  }

  /** A list without repetition, but for its last key. */
  lemma LastKey(keys: seq<Key>)
    requires keys != []
    ensures var front, last := keys[..|keys| - 1], keys[|keys| - 1];
            keys == front + [last] && AsSet(keys) == AsSet(front) + {last}
    ensures Distinct(keys) ==> Distinct(keys[..|keys| - 1]) && keys[|keys| - 1] !in keys[..|keys| - 1]
  {
    var front, last := keys[..|keys| - 1], keys[|keys| - 1];
    assert keys == front + [last];
    assert forall i :: 0 <= i < |front| ==> keys[i] == front[i];
  }

  lemma {:induction false} RunLast(store: Storage, db: Tables, before: seq<Statement>, s: Statement)
    ensures Run(store, db, before + [s]) ==
            match Run(store, db, before) case Failed(v) => Failed(v) case Done(so) => Exec(store, so, s)
  {
    assert (before + [s])[..|before|] == before;
  }

  lemma KeysAmong(rows: map<Key, Row>, keys: seq<Key>)
    requires forall k :: k in keys ==> k in rows
    ensures AsSet(keys) <= rows.Keys && forall k :: k in AsSet(keys) <==> k in keys
  {
  }

  lemma UpsertOn(store: Storage, db: Tables, spec: TableSpec, rows: map<Key, Row>, cur: Table, written: set<Key>, k: Key)
    requires written <= rows.Keys && k in rows && k !in written
    ensures var so := db[spec.name := Written(store, spec, rows, cur, written)];
            var r := Exec(store, so, Upsert(spec, k, rows[k]));
            r.Done? ==> r.tables == db[spec.name := Written(store, spec, rows, cur, written + {k})]
  {
    var so := db[spec.name := Written(store, spec, rows, cur, written)];
    ExecDone(store, so, Upsert(spec, k, rows[k]));
    WrittenNext(store, spec, rows, cur, written, k);
    hide Exec, Effect, Written;
  }

  lemma UpsertsLast(spec: TableSpec, rows: map<Key, Row>, keys: seq<Key>)
    requires keys != [] && keys[|keys| - 1] in rows
    ensures Upserts(spec, rows, keys)
         == Upserts(spec, rows, keys[..|keys| - 1]) + [Upsert(spec, keys[|keys| - 1], rows[keys[|keys| - 1]])]
  {
  }

  lemma {:induction false} UpsertsRun(store: Storage, db: Tables, spec: TableSpec, rows: map<Key, Row>, keys: seq<Key>)
    requires spec.name in db
    requires Distinct(keys) && forall k :: k in keys ==> k in rows
    requires Run(store, db, Upserts(spec, rows, keys)).Done?
    ensures Run(store, db, Upserts(spec, rows, keys)).tables
         == db[spec.name := Written(store, spec, rows, db[spec.name], AsSet(keys))]
  {
    var cur := db[spec.name];
    if keys == [] {
      assert AsSet(keys) == {} && Written(store, spec, rows, cur, {}) == cur;
      assert db == db[spec.name := cur];
    } else {
      var front, last := keys[..|keys| - 1], keys[|keys| - 1];
      assert last in keys;
      LastKey(keys);
      KeysAmong(rows, front);
      UpsertsLast(spec, rows, keys);
      hide Exec, Run, Distinct, Upserts, AsSet, Written;
      RunLast(store, db, Upserts(spec, rows, front), Upsert(spec, last, rows[last]));
      UpsertsRun(store, db, spec, rows, front);
      UpsertOn(store, db, spec, rows, cur, AsSet(front), last);
    }
  }

  lemma DisabledNext(store: Storage, spec: TableSpec, cur: Table, keys: set<Key>, k: Key)
    requires k in cur
    ensures Effect(store, Disabled(cur, keys), DisableRow(spec, k)) == Disabled(cur, keys + {k})
  {
    assert cur[k][Enabled := Bool(false)][Enabled := Bool(false)] == cur[k][Enabled := Bool(false)];
  }

  lemma {:induction false} DisablesRun(store: Storage, db: Tables, spec: TableSpec, keys: seq<Key>)
    requires spec.name in db && Distinct(keys) && forall k :: k in keys ==> k in db[spec.name]
    ensures Run(store, db, Disables(spec, keys)) == Done(db[spec.name := Disabled(db[spec.name], AsSet(keys))])
  {
    var cur := db[spec.name];
    if keys == [] {
      assert AsSet(keys) == {} && Disabled(cur, {}) == cur;
      assert db == db[spec.name := cur];
    } else {
      hide Exec, Run, Distinct, Disabled;
      var front, last := keys[..|keys| - 1], keys[|keys| - 1];
      LastKey(keys);
      assert Disables(spec, keys) == Disables(spec, front) + [DisableRow(spec, last)];
      RunLast(store, db, Disables(spec, front), DisableRow(spec, last));
      DisablesRun(store, db, spec, front);
      ExecDone(store, db[spec.name := Disabled(cur, AsSet(front))], DisableRow(spec, last));
      DisabledNext(store, spec, cur, AsSet(front), last);
    }
  }

  lemma DeletedNext(cur: Table, keys: set<Key>, k: Key)
    ensures cur - keys - {k} == cur - (keys + {k})
  {
  }

  lemma {:induction false} DeletesRun(store: Storage, db: Tables, spec: TableSpec, keys: seq<Key>)
    requires spec.name in db
    ensures Run(store, db, Deletes(spec, keys)) == Done(db[spec.name := db[spec.name] - AsSet(keys)])
  {
    var cur := db[spec.name];
    if keys == [] {
      assert AsSet(keys) == {} && cur - {} == cur;
      assert db == db[spec.name := cur];
    } else {
      hide Exec, Run;
      var front, last := keys[..|keys| - 1], keys[|keys| - 1];
      LastKey(keys);
      assert Deletes(spec, keys) == Deletes(spec, front) + [DeleteRow(spec, last)];
      RunLast(store, db, Deletes(spec, front), DeleteRow(spec, last));
      DeletesRun(store, db, spec, front);
      ExecDone(store, db[spec.name := cur - AsSet(front)], DeleteRow(spec, last));
      DeletedNext(cur, AsSet(front), last);
    }
  }

  lemma PlanKeys(spec: TableSpec, desired: Rows, current: Rows)
    requires desired.Valid() && current.Valid()
    ensures var plan := PlanFor(spec, desired, current);
            && AsSet(plan.creates) == Missing(desired.at, current.at)
            && AsSet(plan.updates) == Changed(desired.at, current.at)
            && AsSet(plan.disables) == (if spec.removal.Disable? then StaleActive(desired.at, current.at) else {})
            && AsSet(plan.deletes) == (if spec.removal.Delete? then Stale(desired.at, current.at) else {})
            && Distinct(plan.creates) && Distinct(plan.updates) && Distinct(plan.disables)
  {
    SelectedKeys(desired.order, Missing(desired.at, current.at));
    SelectedKeys(desired.order, Changed(desired.at, current.at));
    SelectedKeys(current.order, StaleActive(desired.at, current.at));
    SelectedKeys(current.order, Stale(desired.at, current.at));
  }

  lemma DistinctUnion(a: seq<Key>, b: seq<Key>)
    requires Distinct(a) && Distinct(b) && AsSet(a) !! AsSet(b)
    ensures Distinct(a + b) && AsSet(a + b) == AsSet(a) + AsSet(b)
  {
    forall i, j | 0 <= i < j < |a + b| ensures (a + b)[i] != (a + b)[j] {
      if i < |a| <= j {
        assert a[i] in AsSet(a) && b[j - |a|] in AsSet(b);
      }
    }
  }

  lemma WritesOfPlan(spec: TableSpec, desired: Rows, current: Rows)
    requires desired.Valid() && current.Valid()
    ensures var plan := PlanFor(spec, desired, current);
            && Distinct(plan.creates + plan.updates)
            && AsSet(plan.creates + plan.updates) == Missing(desired.at, current.at) + Changed(desired.at, current.at)
            && forall k :: k in plan.creates + plan.updates ==> k in desired.at
  {
    var plan := PlanFor(spec, desired, current);
    PlanKeys(spec, desired, current);
    DistinctUnion(plan.creates, plan.updates);
    forall k | k in plan.creates + plan.updates ensures k in desired.at {
      assert k in AsSet(plan.creates + plan.updates);
    }
  }

  lemma StepsMakeAfterTable(store: Storage, spec: TableSpec, desired: map<Key, Row>, cur: Table)
    ensures var written := Missing(desired, cur) + Changed(desired, cur);
            var disabled := if spec.removal.Disable? then StaleActive(desired, cur) else {};
            var deleted := if spec.removal.Delete? then Stale(desired, cur) else {};
            Disabled(Written(store, spec, desired, cur, written), disabled) - deleted
            == AfterTable(store, spec, desired, cur)
  {
  }

  lemma {:induction false} RemovalsRun(store: Storage, db: Tables, spec: TableSpec, disables: seq<Key>, deletes: seq<Key>)
    requires spec.name in db && Distinct(disables)
    requires forall k :: k in disables ==> k in db[spec.name]
    ensures Run(store, db, Disables(spec, disables) + Deletes(spec, deletes))
         == Done(db[spec.name := Disabled(db[spec.name], AsSet(disables)) - AsSet(deletes)])
  {
    hide Run, Disables, Deletes, Disabled, Distinct, AsSet;
    DisablesRun(store, db, spec, disables);
    var so := db[spec.name := Disabled(db[spec.name], AsSet(disables))];
    DeletesRun(store, so, spec, deletes);
    RunAppend(store, db, Disables(spec, disables), Deletes(spec, deletes));
  }

  lemma {:induction false} StatementsRun(store: Storage, db: Tables, spec: TableSpec, rows: map<Key, Row>,
                      writes: seq<Key>, disables: seq<Key>, deletes: seq<Key>)
    requires spec.name in db && Distinct(writes) && Distinct(disables)
    requires forall k :: k in writes ==> k in rows
    requires forall k :: k in disables ==> k in db[spec.name]
    ensures var result := Run(store, db, Upserts(spec, rows, writes) + (Disables(spec, disables) + Deletes(spec, deletes)));
            && (result.Failed? ==> result == Run(store, db, Upserts(spec, rows, writes)))
            && (result.Done? ==> Run(store, db, Upserts(spec, rows, writes)).Done?)
            && (result.Done? ==> result.tables == db[spec.name :=
                 Disabled(Written(store, spec, rows, db[spec.name], AsSet(writes)), AsSet(disables)) - AsSet(deletes)])
  {
    var upserts := Upserts(spec, rows, writes);
    RunAppend(store, db, upserts, Disables(spec, disables) + Deletes(spec, deletes));
    if Run(store, db, upserts).Done? {
      UpsertsRun(store, db, spec, rows, writes);
      var w := Written(store, spec, rows, db[spec.name], AsSet(writes));
      RemovalsRun(store, db[spec.name := w], spec, disables, deletes);
    }
  }

  /** When no statement fails, the statements of a table's plan leave the table row by row as
      described, and no other table changes. Only an upsert can fail. */
  lemma {:induction false} TableRuns(store: Storage, db: Tables, spec: TableSpec, desired: Rows, current: Rows)
    requires desired.Valid() && current.Valid()
    requires spec.name in db && db[spec.name] == current.at
    ensures var plan := PlanFor(spec, desired, current);
            var result := Run(store, db, TableStatements(plan));
            && (result.Failed? ==> result == Run(store, db, Upserts(spec, plan.rows, plan.creates + plan.updates)))
            && (result.Done? ==> Run(store, db, Upserts(spec, plan.rows, plan.creates + plan.updates)).Done?)
            && (result.Done? ==> result.tables == db[spec.name := AfterTable(store, spec, desired.at, current.at)])
  {
    WritesOfPlan(spec, desired, current);
    PlanKeys(spec, desired, current);
    DisablesAfterWrites(spec, desired, current, current.at.Keys);
    var plan := PlanFor(spec, desired, current);
    StatementsRun(store, db, spec, plan.rows, plan.creates + plan.updates, plan.disables, plan.deletes);
    StepsMakeAfterTable(store, spec, desired.at, current.at);
  }

  lemma DisablesAfterWrites(spec: TableSpec, desired: Rows, current: Rows, keys: set<Key>)
    requires desired.Valid() && current.Valid() && current.at.Keys <= keys
    ensures forall k :: k in PlanFor(spec, desired, current).disables ==> k in keys
  {
    PlanKeys(spec, desired, current);
    forall k | k in PlanFor(spec, desired, current).disables ensures k in keys {
      assert k in AsSet(PlanFor(spec, desired, current).disables);
    }
  }
}
