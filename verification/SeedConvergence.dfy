/** Convergence of one table: what a completed plan leaves needs no further plan. */
module SeedConvergence {
  import opened Values
  import opened SeedPlan
  import opened SeedApply

  /** The key columns of every row spell its key. */
  ghost predicate WellKeyed(spec: TableSpec, rows: map<Key, Row>) {
    forall k :: k in rows ==> RowKeyed(spec, k, rows[k])
  }

  ghost predicate RowKeyed(spec: TableSpec, k: Key, row: Row) {
    && |k| == |spec.key|
    && forall i :: 0 <= i < |k| ==> Get(row, spec.key[i]) == Text(k[i])
  }

  /** Storage keeps the canonical value of everything a write of `row` would store. */
  ghost predicate KeptByStorage(store: Storage, spec: TableSpec, cur: Table, k: Key, row: Row) {
    forall c :: c in row && (k !in cur || c !in spec.key) ==> Canon(store(spec.name, c, row[c])) == Canon(row[c])
  }

  ghost predicate Faithful(store: Storage, spec: TableSpec, desired: map<Key, Row>) {
    forall k, c :: k in desired && c in desired[k] ==>
      Canon(store(spec.name, c, desired[k][c])) == Canon(desired[k][c])
  }

  lemma WrittenColumn(store: Storage, spec: TableSpec, cur: Table, k: Key, row: Row, c: Column)
    requires RowKeyed(spec, k, row) && WellKeyed(spec, cur) && c in row
    ensures Get(NewRow(store, spec, cur, k, row), c)
         == if k !in cur || c !in spec.key then store(spec.name, c, row[c]) else row[c]
  {
    if k in cur && c in spec.key {
      var i :| 0 <= i < |spec.key| && spec.key[i] == c;
      assert RowKeyed(spec, k, cur[k]);
      assert Get(row, spec.key[i]) == Text(k[i]) == Get(cur[k], spec.key[i]);
    }
  }

  lemma WrittenRowMatches(store: Storage, spec: TableSpec, cur: Table, k: Key, row: Row)
    requires RowKeyed(spec, k, row) && WellKeyed(spec, cur)
    ensures !Differs(row, NewRow(store, spec, cur, k, row)) <==> KeptByStorage(store, spec, cur, k, row)
  {
    hide RowKeyed, WellKeyed, NewRow, Get, Canon;
    forall c | c in row
      ensures Get(NewRow(store, spec, cur, k, row), c)
           == if k !in cur || c !in spec.key then store(spec.name, c, row[c]) else row[c]
    {
      WrittenColumn(store, spec, cur, k, row, c);
    }
  }

  /** Replanning from what a completed plan leaves finds nothing to write, exactly when storage
      kept the canonical value of everything that was written. */
  lemma SettledIffKept(store: Storage, spec: TableSpec, desired: map<Key, Row>, cur: Table)
    requires WellKeyed(spec, desired) && WellKeyed(spec, cur)
    ensures Settled(spec, desired, AfterTable(store, spec, desired, cur))
      <==> forall k :: k in Missing(desired, cur) + Changed(desired, cur) ==>
             KeptByStorage(store, spec, cur, k, desired[k])
  {
    var after := AfterTable(store, spec, desired, cur);
    forall k | k in desired
      ensures k in after
      ensures !Differs(desired[k], after[k]) <==>
                (k in cur && !Differs(desired[k], cur[k])) || KeptByStorage(store, spec, cur, k, desired[k])
    {
      WrittenRowMatches(store, spec, cur, k, desired[k]);
    }
    forall k | k in after && k !in desired
      ensures spec.removal.Retain? || (spec.removal.Disable? && !IsActive(after[k]))
    {
    }
  }

  /** Rounding makes a seed restless: a column whose value storage does not keep, such as a price with
      more decimals than its column, differs after every seed and is planned for writing again. */
  lemma LossyColumnNeverSettles(store: Storage, spec: TableSpec, desired: map<Key, Row>, cur: Table, k: Key, c: Column)
    requires WellKeyed(spec, desired) && WellKeyed(spec, cur)
    requires k in desired && c in desired[k] && c !in spec.key
    requires Canon(store(spec.name, c, desired[k][c])) != Canon(desired[k][c])
    requires k in cur ==> Canon(Get(cur[k], c)) != Canon(desired[k][c])
    ensures var after := AfterTable(store, spec, desired, cur);
            && k in after && Canon(Get(after[k], c)) != Canon(desired[k][c])
            && k in Changed(desired, after) && !Settled(spec, desired, after)
  {
    assert k in cur ==> Differs(desired[k], cur[k]);
    WrittenColumn(store, spec, cur, k, desired[k], c);
  }

  /** Convergence under faithful storage: the table is settled and still well keyed. */
  lemma Converges(store: Storage, spec: TableSpec, desired: map<Key, Row>, cur: Table)
    requires WellKeyed(spec, desired) && WellKeyed(spec, cur) && Faithful(store, spec, desired)
    ensures Settled(spec, desired, AfterTable(store, spec, desired, cur))
    ensures WellKeyed(spec, AfterTable(store, spec, desired, cur))
  {
    var after := AfterTable(store, spec, desired, cur);
    SettledIffKept(store, spec, desired, cur);
    forall k | k in after ensures RowKeyed(spec, k, after[k]) {
      if k !in desired {
        StaleRowKeyed(store, spec, desired, cur, k);
      } else {
        hide AfterTable, RowKeyed, Differs;
        assert !Differs(desired[k], after[k]) && RowKeyed(spec, k, desired[k]);
        KeyedByContent(spec, k, desired[k], after[k]);
      }
    }
  }

  lemma StaleRowKeyed(store: Storage, spec: TableSpec, desired: map<Key, Row>, cur: Table, k: Key)
    requires WellKeyed(spec, cur) && k !in desired && k in AfterTable(store, spec, desired, cur)
    ensures RowKeyed(spec, k, AfterTable(store, spec, desired, cur)[k])
  {
    assert RowKeyed(spec, k, cur[k]);
  }

  /** What happens to every row: a desired one matches on all its columns and keeps the others it had; one
      no longer desired is deleted, or kept as it was but for being switched off, or kept, as the spec
      says. */
  lemma RowByRow(store: Storage, spec: TableSpec, desired: map<Key, Row>, cur: Table, k: Key)
    requires WellKeyed(spec, desired) && WellKeyed(spec, cur) && Faithful(store, spec, desired)
    ensures var after := AfterTable(store, spec, desired, cur);
            if k in desired then
              && k in after && (forall c :: c in desired[k] ==> Canon(Get(after[k], c)) == Canon(desired[k][c]))
              && (forall c :: c !in desired[k] ==> Get(after[k], c) == if k in cur then Get(cur[k], c) else Null)
            else if k !in cur || spec.removal.Delete? then
              k !in after
            else
              && k in after && (forall c :: c != Enabled ==> Get(after[k], c) == Get(cur[k], c))
              && (spec.removal.Retain? ==> after[k] == cur[k])
              && (spec.removal.Disable? ==>
                    if Get(cur[k], Enabled) == Bool(true) then Get(after[k], Enabled) == Bool(false) else after[k] == cur[k])
  {
    Converges(store, spec, desired, cur);
  }

  lemma KeyedByContent(spec: TableSpec, k: Key, row: Row, found: Row)
    requires RowKeyed(spec, k, row) && !Differs(row, found)
    ensures RowKeyed(spec, k, found)
  {
    forall i | 0 <= i < |k| ensures Get(found, spec.key[i]) == Text(k[i]) {
      assert spec.key[i] in row && Canon(row[spec.key[i]]) == Canon(Get(found, spec.key[i]));
    }
  }
}
