/** The seeder's diff: what has to be written to take a table from `current` to `desired`. */
module SeedPlan {
  import opened Common
  import opened Values

  type Key = seq<string>

  /** A dictionary of rows: its keys in iteration order, and the rows. */
  datatype Rows = Rows(order: seq<Key>, at: map<Key, Row>)
  {
    ghost predicate Valid() {
      Distinct(order) && forall k :: k in order <==> k in at
    }
  }

  datatype TableName =
    | Capabilities | CapabilityDependencies | Providers | ProviderAdapters | AdapterFallbacks
    | RoutingPolicies | DeviceProfiles

  datatype Removal = Disable | Delete | Retain

  datatype TableSpec = TableSpec(name: TableName, key: seq<Column>, removal: Removal)

  const TABLE_SPECS: seq<TableSpec> := [
    TableSpec(Capabilities, [Id], Retain),
    TableSpec(CapabilityDependencies, [CapabilityId, DependsOnId, Kind], Delete),
    TableSpec(Providers, [Id], Disable),
    TableSpec(ProviderAdapters, [Id], Disable),
    TableSpec(AdapterFallbacks, [AdapterId, FallbackAdapterId], Delete),
    TableSpec(RoutingPolicies, [Scope], Retain),
    TableSpec(DeviceProfiles, [Id], Retain)
  ]

  /** A plan names the rows to write by key; `rows` are the desired rows themselves. */
  datatype TablePlan = TablePlan(
    spec: TableSpec, rows: map<Key, Row>,
    creates: seq<Key>, updates: seq<Key>, disables: seq<Key>, deletes: seq<Key>, kept: nat)
  {
    function Writes(): nat {
      |creates| + |updates| + |disables| + |deletes|
    }
  }

  function Selected(keys: seq<Key>, chosen: set<Key>): seq<Key> {
    if keys == [] then []
    else
      var last := keys[|keys| - 1];
      Selected(keys[..|keys| - 1], chosen) + if last in chosen then [last] else []
  }

  function Missing(desired: map<Key, Row>, current: map<Key, Row>): set<Key> {
    set k | k in desired && k !in current
  }

  function Changed(desired: map<Key, Row>, current: map<Key, Row>): set<Key> {
    set k | k in desired && k in current && Differs(desired[k], current[k])
  }

  function Same(desired: map<Key, Row>, current: map<Key, Row>): set<Key> {
    set k | k in desired && k in current && !Differs(desired[k], current[k])
  }

  function Stale(desired: map<Key, Row>, current: map<Key, Row>): set<Key> {
    set k | k in current && k !in desired
  }

  predicate IsActive(row: Row) {
    Get(row, Enabled) == Bool(true)
  }

  function StaleActive(desired: map<Key, Row>, current: map<Key, Row>): set<Key> {
    set k | k in current && k !in desired && IsActive(current[k])
  }

  function PlanFor(spec: TableSpec, desired: Rows, current: Rows): TablePlan {
    TablePlan(
      spec, desired.at,
      Selected(desired.order, Missing(desired.at, current.at)),
      Selected(desired.order, Changed(desired.at, current.at)),
      if spec.removal.Disable? then Selected(current.order, StaleActive(desired.at, current.at)) else [],
      if spec.removal.Delete? then Selected(current.order, Stale(desired.at, current.at)) else [],
      |Selected(desired.order, Same(desired.at, current.at))|)
  }

  lemma {:induction false} SelectedNext(keys: seq<Key>, chosen: set<Key>, i: nat)
    requires i < |keys|
    ensures Selected(keys[..i + 1], chosen) == Selected(keys[..i], chosen) + if keys[i] in chosen then [keys[i]] else []
  {
    assert keys[..i + 1][..i] == keys[..i];
  }

  method BuildTablePlan(spec: TableSpec, desired: Rows, current: Rows) returns (plan: TablePlan)
    requires desired.Valid() && current.Valid()
    ensures plan == PlanFor(spec, desired, current)
  {
    var creates, updates, kept := DiffDesired(desired, current);
    var disables, deletes := DiffStale(spec.removal, desired, current);
    plan := TablePlan(spec, desired.at, creates, updates, disables, deletes, kept);
  }

  /** The first loop of `build_table_plan`. */
  method DiffDesired(desired: Rows, current: Rows) returns (creates: seq<Key>, updates: seq<Key>, kept: nat)
    requires desired.Valid()
    ensures creates == Selected(desired.order, Missing(desired.at, current.at))
    ensures updates == Selected(desired.order, Changed(desired.at, current.at))
    ensures kept == |Selected(desired.order, Same(desired.at, current.at))|
  {
    ghost var missing, changed, same :=
      Missing(desired.at, current.at), Changed(desired.at, current.at), Same(desired.at, current.at);
    creates, updates, kept := [], [], 0;
    for i := 0 to |desired.order|
      invariant creates == Selected(desired.order[..i], missing)
      invariant updates == Selected(desired.order[..i], changed)
      invariant kept == |Selected(desired.order[..i], same)|
    {
      var key := desired.order[i];
      assert key in desired.at;
      SelectedNext(desired.order, missing, i);
      SelectedNext(desired.order, changed, i);
      SelectedNext(desired.order, same, i);
      if key !in current.at {
        creates := creates + [key];
      } else if Differs(desired.at[key], current.at[key]) {
        updates := updates + [key];
      } else {
        kept := kept + 1;
      }
    }
    assert desired.order[..|desired.order|] == desired.order;
  }

  /** The second loop: what becomes of rows no longer desired. */
  method DiffStale(removal: Removal, desired: Rows, current: Rows) returns (disables: seq<Key>, deletes: seq<Key>)
    requires current.Valid()
    ensures disables == if removal.Disable? then Selected(current.order, StaleActive(desired.at, current.at)) else []
    ensures deletes == if removal.Delete? then Selected(current.order, Stale(desired.at, current.at)) else []
  {
    ghost var active, stale := StaleActive(desired.at, current.at), Stale(desired.at, current.at);
    disables, deletes := [], [];
    for i := 0 to |current.order|
      invariant disables == if removal.Disable? then Selected(current.order[..i], active) else []
      invariant deletes == if removal.Delete? then Selected(current.order[..i], stale) else []
    {
      var key := current.order[i];
      assert key in current.at;
      SelectedNext(current.order, active, i);
      SelectedNext(current.order, stale, i);
      if key !in desired.at {
        if removal.Disable? {
          if IsActive(current.at[key]) {
            disables := disables + [key];
          }
        } else if removal.Delete? {
          deletes := deletes + [key];
        }
      }
    }
    assert current.order[..|current.order|] == current.order;
  }

  lemma {:induction false} SelectedKeys(keys: seq<Key>, chosen: set<Key>)
    ensures forall k :: k in Selected(keys, chosen) <==> k in keys && k in chosen
    ensures |Selected(keys, chosen)| <= |keys|
    ensures Distinct(keys) ==> Distinct(Selected(keys, chosen))
  {
    if keys != [] {
      var front := keys[..|keys| - 1];
      SelectedKeys(front, chosen);
      assert keys == front + [keys[|keys| - 1]];
      if Distinct(keys) {
        assert forall i :: 0 <= i < |front| ==> keys[i] == front[i] && keys[i] != keys[|front|];
        assert keys[|keys| - 1] !in front;
      }
    }
  }

  /** A selection keeps the order it selects from. */
  lemma {:induction false} SelectedInOrder(keys: seq<Key>, chosen: set<Key>, i: nat, j: nat)
    requires Distinct(keys)
    requires i < j < |Selected(keys, chosen)|
    ensures Selected(keys, chosen)[i] in keys && Selected(keys, chosen)[j] in keys
    ensures IndexOf(keys, Selected(keys, chosen)[i]) < IndexOf(keys, Selected(keys, chosen)[j])
  {
    var picked := Selected(keys, chosen);
    SelectedKeys(keys, chosen);
    assert picked[i] in picked && picked[j] in picked;
    var front := keys[..|keys| - 1];
    SelectedKeys(front, chosen);
    assert keys == front + [keys[|keys| - 1]];
    if j < |Selected(front, chosen)| {
      SelectedInOrder(front, chosen, i, j);
      assert picked[i] == keys[IndexOf(front, picked[i])] && picked[j] == keys[IndexOf(front, picked[j])];
    } else {
      assert picked[i] == Selected(front, chosen)[i] && picked[i] in Selected(front, chosen);
      assert picked[i] in front;
    }
  }

  /** Nothing to write: every desired row is there unchanged and nothing stale is to be removed. */
  ghost predicate Settled(spec: TableSpec, desired: map<Key, Row>, current: map<Key, Row>) {
    && (forall k :: k in desired ==> k in current && !Differs(desired[k], current[k]))
    && (forall k :: k in current && k !in desired ==>
          spec.removal.Retain? || (spec.removal.Disable? && !IsActive(current[k])))
  }

  lemma {:induction false} SelectedEmpty(keys: seq<Key>, chosen: set<Key>)
    ensures Selected(keys, chosen) == [] <==> forall k :: k in keys ==> k !in chosen
  {
    SelectedKeys(keys, chosen);
    if Selected(keys, chosen) != [] {
      assert Selected(keys, chosen)[0] in Selected(keys, chosen);
    }
  }

  /** A plan is empty exactly when the table is settled, whatever the iteration orders. */
  lemma EmptyPlanIffSettled(spec: TableSpec, desired: Rows, current: Rows)
    requires desired.Valid() && current.Valid()
    ensures PlanFor(spec, desired, current).Writes() == 0 <==> Settled(spec, desired.at, current.at)
  {
    var plan := PlanFor(spec, desired, current);
    var missing, changed := Missing(desired.at, current.at), Changed(desired.at, current.at);
    var active, stale := StaleActive(desired.at, current.at), Stale(desired.at, current.at);
    SelectedEmpty(desired.order, missing);
    SelectedEmpty(desired.order, changed);
    SelectedEmpty(current.order, active);
    SelectedEmpty(current.order, stale);
    assert plan.creates == [] && plan.updates == [] <==>
           forall k :: k in desired.at ==> k in current.at && !Differs(desired.at[k], current.at[k]) by {
      assert forall k :: k in desired.at ==> (k !in missing && k !in changed <==>
                                               k in current.at && !Differs(desired.at[k], current.at[k]));
    }
    assert plan.disables == [] && plan.deletes == [] <==>
           forall k :: k in current.at && k !in desired.at ==>
             spec.removal.Retain? || (spec.removal.Disable? && !IsActive(current.at[k])) by {
      assert forall k :: k in current.at && k !in desired.at ==> k in stale && (k in active <==> IsActive(current.at[k]));
    }
  }

  // ---- What is planned for a row ---------------------------------------------------------------------------

  /** Each row, from its values alone: a desired row is created when its key is not there, updated when some
      column does not have the same value, and otherwise left; any other row is switched off if it is on,
      deleted, or left, as the spec says. */
  lemma RowIsPlanned(spec: TableSpec, desired: Rows, current: Rows, k: Key)
    requires desired.Valid() && current.Valid()
    ensures var plan := PlanFor(spec, desired, current);
            && (k in plan.creates <==> k in desired.at && k !in current.at)
            && (k in plan.updates <==>
                  && k in desired.at && k in current.at
                  && exists c :: c in desired.at[k] && !SameValue(desired.at[k][c], Get(current.at[k], c)))
            && (k in plan.disables <==>
                  spec.removal == Disable && k in current.at && k !in desired.at && Get(current.at[k], Enabled) == Bool(true))
            && (k in plan.deletes <==> spec.removal == Delete && k in current.at && k !in desired.at)
  {
    SelectedKeys(desired.order, Missing(desired.at, current.at));
    SelectedKeys(desired.order, Changed(desired.at, current.at));
    SelectedKeys(current.order, StaleActive(desired.at, current.at));
    SelectedKeys(current.order, Stale(desired.at, current.at));
    hide Differs, SameValue, Selected;
    if k in desired.at && k in current.at {
      DiffersIff(desired.at[k], current.at[k]);
    }
  }

  lemma {:induction false} SelectedApart(keys: seq<Key>, a: set<Key>, b: set<Key>, c: set<Key>)
    requires forall k :: k in keys ==> (k in a) != (k in b) || k in c
    requires forall k :: k in keys && k in c ==> k !in a && k !in b
    ensures |Selected(keys, a)| + |Selected(keys, b)| + |Selected(keys, c)| == |keys|
  {
    if keys != [] {
      SelectedApart(keys[..|keys| - 1], a, b, c);
    }
  }

  /** Every desired row is counted once: as created, updated or unchanged. */
  lemma RowsAreCounted(spec: TableSpec, desired: Rows, current: Rows)
    requires desired.Valid() && current.Valid()
    ensures var plan := PlanFor(spec, desired, current);
            |plan.creates| + |plan.updates| + plan.kept == |desired.order|
  {
    SelectedApart(desired.order, Missing(desired.at, current.at), Changed(desired.at, current.at), Same(desired.at, current.at));
  }

  /** A table with the desired keys is not written at all exactly when every column has the same value:
      read back with decimals for its floats, it is unchanged. */
  lemma ReadBackIsUnchanged(spec: TableSpec, desired: Rows, current: Rows)
    requires desired.Valid() && current.Valid() && desired.at.Keys == current.at.Keys
    ensures PlanFor(spec, desired, current).Writes() == 0 <==>
              forall k, c :: k in desired.at && c in desired.at[k] ==> SameValue(desired.at[k][c], Get(current.at[k], c))
  {
    EmptyPlanIffSettled(spec, desired, current);
    hide PlanFor, Differs, SameValue;
    forall k | k in desired.at
      ensures Differs(desired.at[k], current.at[k]) <==>
                exists c :: c in desired.at[k] && !SameValue(desired.at[k][c], Get(current.at[k], c))
    {
      DiffersIff(desired.at[k], current.at[k]);
    }
  }

  /** A row that differs at most in one number is updated exactly when the number is another, or is not
      there. */
  lemma OneNumber(spec: TableSpec, desired: Rows, current: Rows, k: Key, c: Column, x: real)
    requires desired.Valid() && current.Valid() && k in desired.at && k in current.at
    requires c in desired.at[k] && desired.at[k][c] == Float(x)
    requires forall c' :: c' in desired.at[k] && c' != c ==> SameValue(desired.at[k][c'], Get(current.at[k], c'))
    ensures k in PlanFor(spec, desired, current).updates <==> Get(current.at[k], c) !in {Float(x), Decimal(x)}
  {
    RowIsPlanned(spec, desired, current, k);
    hide PlanFor;
    assert SameValue(Float(x), Get(current.at[k], c)) <==> Get(current.at[k], c) in {Float(x), Decimal(x)};
  }
}
