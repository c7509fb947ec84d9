/** Seeding one manifest after another: exactly which changes of adapters and fallback lists a seed can
    make. */
module ManifestChanges {
  import opened Common
  import opened Values
  import opened CycleFinding
  import opened Manifest
  import opened SeedPlan
  import opened SeedApply
  import opened SeedConvergence
  import opened SeedCatalogue
  import opened SeedConstraints
  import opened SeedCollisions
  import opened SeedUniqueness
  import opened SeedDesired
  import opened FallbackLists
  import ManifestChains
  import SeedRestore

  // ---- Adapters --------------------------------------------------------------------------------------------

  const ADAPTERS: TableSpec := TABLE_SPECS[3]

  /** The provider that lists each adapter. */
  function Owners(ps: seq<Provider>): seq<string> {
    if ps == [] then []
    else Owners(ps[..|ps| - 1]) + seq(|ps[|ps| - 1].adapters|, _ => ps[|ps| - 1].id)
  }

  lemma {:induction false} EntriesByOwner(ps: seq<Provider>)
    ensures |Owners(ps)| == |Adapters(ps)| == |AdapterEntries(ps)|
    ensures forall i :: 0 <= i < |Adapters(ps)| ==> AdapterEntries(ps)[i] == AdapterEntry(Owners(ps)[i], Adapters(ps)[i])
  {
    if ps != [] {
      EntriesByOwner(ps[..|ps| - 1]);
    }
  }

  /** Row `x` serves this capability of this provider, enabled or not. */
  predicate Serves(cur: Table, x: Key, provider: string, capability: string) {
    x in cur && Get(cur[x], ProviderId) == Text(provider) && Get(cur[x], CapabilityId) == Text(capability)
  }

  predicate ListedBefore(ids: seq<string>, x: Key, id: string) {
    |x| == 1 && x[0] in ids && id in ids && IndexOf(ids, x[0]) < IndexOf(ids, id)
  }

  /** Where an adapter takes over what another row of the table serves, both are rewritten: it is in the
      table already, and the other is in the manifest, before it. */
  ghost predicate AdaptersFit(ps: seq<Provider>, cur: Table)
    requires |Owners(ps)| == |Adapters(ps)|
  {
    forall x, i :: 0 <= i < |Adapters(ps)| && Serves(cur, x, Owners(ps)[i], Adapters(ps)[i].capability)
                   && x != [Adapters(ps)[i].id] ==>
      [Adapters(ps)[i].id] in cur && ListedBefore(Ids(Adapters(ps)), x, Adapters(ps)[i].id)
  }

  lemma {:induction false} AdapterFilled(ps: seq<Provider>, i: nat)
    requires Distinct(Ids(Adapters(ps))) && i < |Adapters(ps)| == |Owners(ps)|
    ensures var rows, a := Fill(AdapterEntries(ps)).at, Adapters(ps)[i];
            && [a.id] in rows && Get(rows[[a.id]], ProviderId) == Text(Owners(ps)[i])
            && Get(rows[[a.id]], CapabilityId) == Text(a.capability)
  {
    EntriesByOwner(ps);
    hide Fill, AdapterEntries, Adapters, Owners;
    var entries := AdapterEntries(ps);
    forall j | i < j < |entries| ensures entries[j].key != entries[i].key {
      assert entries[j].key[0] == Ids(Adapters(ps))[j] && entries[i].key[0] == Ids(Adapters(ps))[i];
    }
    FillLast(entries, i);
  }

  lemma AdapterKeyListed(ps: seq<Provider>, y: Key) returns (i: nat)
    requires y in Fill(AdapterEntries(ps)).at
    ensures i < |Adapters(ps)| && y == [Adapters(ps)[i].id]
  {
    EntriesByOwner(ps);
    FillKeys(AdapterEntries(ps));
    hide Fill, AdapterEntries, Adapters, Owners;
    i :| 0 <= i < |AdapterEntries(ps)| && KeysOf(AdapterEntries(ps))[i] == y;
  }

  lemma {:induction false} IdPlace(ps: seq<Provider>, id: string)
    requires id in Ids(Adapters(ps))
    ensures [id] in KeysOf(AdapterEntries(ps))
    ensures IndexOf(KeysOf(AdapterEntries(ps)), [id]) == IndexOf(Ids(Adapters(ps)), id)
  {
    EntriesByOwner(ps);
    hide AdapterEntries, Adapters, Owners;
    var ids, keys := Ids(Adapters(ps)), KeysOf(AdapterEntries(ps));
    var i := IndexOf(ids, id);
    assert forall j :: 0 <= j < |ids| ==> keys[j] == [ids[j]];
    assert forall j :: 0 <= j < i ==> ids[j] in ids[..i];
    FirstPlace(keys, [id], i);
  }

  lemma {:induction false} AdapterKeyIff(ps: seq<Provider>, x: Key)
    ensures x in Fill(AdapterEntries(ps)).at <==> |x| == 1 && x[0] in Ids(Adapters(ps))
  {
    if x in Fill(AdapterEntries(ps)).at {
      var i := AdapterKeyListed(ps, x);
      assert Ids(Adapters(ps))[i] == x[0];
    }
    if |x| == 1 && x[0] in Ids(Adapters(ps)) {
      assert x == [x[0]];
      IdPlace(ps, x[0]);
      FillKeys(AdapterEntries(ps));
    }
  }

  lemma {:induction false} AdapterMovesFirstIff(ps: seq<Provider>, cur: Table, x: Key, id: string)
    requires id in Ids(Adapters(ps))
    ensures MovesFirst(Fill(AdapterEntries(ps)), cur, x, [id]) <==> [id] in cur && ListedBefore(Ids(Adapters(ps)), x, id)
  {
    var ids := Ids(Adapters(ps));
    FillKeys(AdapterEntries(ps));
    IdPlace(ps, id);
    AdapterKeyIff(ps, x);
    if |x| == 1 && x[0] in ids {
      assert x == [x[0]];
      IdPlace(ps, x[0]);
      FillOrder(AdapterEntries(ps), x, [id]);
    }
  }

  lemma {:induction false} AdapterMeetsIff(ps: seq<Provider>, cur: Table, x: Key, i: nat)
    requires Distinct(Ids(Adapters(ps))) && i < |Adapters(ps)| == |Owners(ps)|
    ensures Meets(ProviderAdapters, Fill(AdapterEntries(ps)).at, cur, x, [Adapters(ps)[i].id]) <==>
              x != [Adapters(ps)[i].id] && Serves(cur, x, Owners(ps)[i], Adapters(ps)[i].capability)
  {
    AdapterFilled(ps, i);
    hide Fill, AdapterEntries, Adapters, Owners;
    assert UniqueColumns(ProviderAdapters)[0] == ProviderId && UniqueColumns(ProviderAdapters)[1] == CapabilityId;
  }

  /** The adapter table goes from its rows to a manifest's exactly when they fit. */
  lemma {:induction false} AdaptersInTurnIff(ps: seq<Provider>, cur: Table)
    requires Distinct(Ids(Adapters(ps)))
    ensures |Owners(ps)| == |Adapters(ps)|
    ensures InTurn(ProviderAdapters, Fill(AdapterEntries(ps)), cur) <==> AdaptersFit(ps, cur)
  {
    EntriesByOwner(ps);
    hide Fill, AdapterEntries, Adapters, Owners, Serves, ListedBefore, MovesFirst, Meets;
    var desired := Fill(AdapterEntries(ps));
    forall x, i | 0 <= i < |Adapters(ps)|
      ensures Meets(ProviderAdapters, desired.at, cur, x, [Adapters(ps)[i].id]) <==>
                x != [Adapters(ps)[i].id] && Serves(cur, x, Owners(ps)[i], Adapters(ps)[i].capability)
      ensures MovesFirst(desired, cur, x, [Adapters(ps)[i].id]) <==>
                [Adapters(ps)[i].id] in cur && ListedBefore(Ids(Adapters(ps)), x, Adapters(ps)[i].id)
    {
      AdapterMeetsIff(ps, cur, x, i);
      assert Ids(Adapters(ps))[i] == Adapters(ps)[i].id;
      AdapterMovesFirstIff(ps, cur, x, Adapters(ps)[i].id);
    }
    if AdaptersFit(ps, cur) {
      forall x, y | Meets(ProviderAdapters, desired.at, cur, x, y) ensures MovesFirst(desired, cur, x, y) {
        MetIsDesired(ProviderAdapters, desired.at, cur, x, y);
        var i := AdapterKeyListed(ps, y);
      }
    }
  }

  lemma MetIsDesired(name: TableName, desired: map<Key, Row>, cur: Table, x: Key, y: Key)
    requires Meets(name, desired, cur, x, y)
    ensures y in desired
  {
  }

  // ---- A manifest after whatever was there -----------------------------------------------------------------

  /** What a seed needs besides the manifest: a database that meets its constraints, read as it is. */
  ghost predicate Ready(store: Storage, desired: Snapshot, current: Snapshot, db: Tables) {
    && FaithfulStorage(TABLE_SPECS, store, desired) && Reads(TABLE_SPECS, current, db)
    && KeyedDatabase(TABLE_SPECS, db) && ForeignKeysHold(db) && UniqueTables(TABLE_SPECS, db)
  }

  datatype Manifests = Manifests(cs: seq<Capability>, doc: ProvidersDoc, routing: Rows, devices: Rows)
  {
    function Desired(): Snapshot {
      BuildDesired(cs, doc, routing, devices)
    }

    function Lists(): Graph {
      FallbackEdges(Adapters(doc.providers))
    }

    ghost predicate ErrorFree() {
      WellFormed(cs, doc) && GivenRows(routing, devices)
    }
  }

  function Seeding(store: Storage, m: Manifests, current: Snapshot, db: Tables): Result {
    Run(store, db, StatementsFor(TABLE_SPECS, m.Desired(), current))
  }

  lemma ErrorFreeSetting(store: Storage, m: Manifests, current: Snapshot, db: Tables)
    requires m.ErrorFree() && Ready(store, m.Desired(), current, db)
    ensures SeedSetting(TABLE_SPECS, store, m.Desired(), current, db) && UniqueDesired(TABLE_SPECS, m.Desired())
    ensures Distinct(Ids(Adapters(m.doc.providers)))
    ensures RowsOf(m.Desired(), ProviderAdapters) == Fill(AdapterEntries(m.doc.providers))
    ensures RowsOf(m.Desired(), AdapterFallbacks) == Fill(FallbackEntries(Adapters(m.doc.providers)))
  {
    hide BuildDesired, Fill, FallbackEntries, AdapterEntries, Adapters, CapabilitiesOk, FallbackGraphOk, FamiliesOk;
    SchemaIsGood();
    DesiredIsValid(m.cs, m.doc, m.routing, m.devices);
    DesiredIsClosed(m.cs, m.doc, m.routing, m.devices);
    DesiredIsUnique(m.cs, m.doc, m.routing, m.devices);
    DesiredTables(m.cs, m.doc, m.routing, m.devices);
  }

  lemma NoUniqueNoTurn(name: TableName, desired: Rows, cur: Table)
    requires name != ProviderAdapters && name != AdapterFallbacks
    ensures InTurn(name, desired, cur)
  {
  }

  /** Tables without a second key never stand in a seed's way. */
  lemma TwoTablesDecide(desired: Snapshot, db: Tables)
    ensures AllInTurnIn(TABLE_SPECS, desired, db) <==>
              && InTurn(ProviderAdapters, RowsOf(desired, ProviderAdapters), TableOf(db, ProviderAdapters))
              && InTurn(AdapterFallbacks, RowsOf(desired, AdapterFallbacks), TableOf(db, AdapterFallbacks))
  {
    hide InTurn, RowsOf, TableOf;
    assert TABLE_SPECS[3].name == ProviderAdapters && TABLE_SPECS[4].name == AdapterFallbacks;
    forall i | 0 <= i < |TABLE_SPECS| && i != 3 && i != 4
      ensures InTurn(TABLE_SPECS[i].name, RowsOf(desired, TABLE_SPECS[i].name), TableOf(db, TABLE_SPECS[i].name))
    {
      NoUniqueNoTurn(TABLE_SPECS[i].name, RowsOf(desired, TABLE_SPECS[i].name), TableOf(db, TABLE_SPECS[i].name));
    }
  }

  /** Seeding an error-free manifest into a database that holds some fallback lists and some adapters:
      it goes through exactly when both fit, and otherwise stops at a duplicate. */
  lemma {:induction false} ManifestChangeIff(store: Storage, m: Manifests, current: Snapshot, db: Tables, was: Graph)
    requires m.ErrorFree() && Ready(store, m.Desired(), current, db)
    requires HoldsLists(TableOf(db, AdapterFallbacks), was)
    ensures |Owners(m.doc.providers)| == |Adapters(m.doc.providers)|
    ensures Seeding(store, m, current, db) ==
            if AdaptersFit(m.doc.providers, TableOf(db, ProviderAdapters)) && AllFit(was, m.Lists())
            then Result.Done(AfterSeed(TABLE_SPECS, store, m.Desired(), db)) else Failed(Duplicate)
  {
    ErrorFreeSetting(store, m, current, db);
    assert UniqueTables(TABLE_SPECS, db);
    hide *;
    AdaptersInTurnIff(m.doc.providers, TableOf(db, ProviderAdapters));
    BuilderInTurnIff(Adapters(m.doc.providers), TableOf(db, AdapterFallbacks), was);
    TwoTablesDecide(m.Desired(), db);
    SeedInTurnIff(TABLE_SPECS, store, m.Desired(), current, db);
    SeedingIs(store, m, current, db);
    ListsAre(m);
  }

  lemma {:induction false} SeedingIs(store: Storage, m: Manifests, current: Snapshot, db: Tables)
    ensures Seeding(store, m, current, db) == Run(store, db, StatementsFor(TABLE_SPECS, m.Desired(), current))
  {
  }

  lemma ListsAre(m: Manifests)
    ensures m.Lists() == FallbackEdges(Adapters(m.doc.providers))
  {
  }

  /** A row that keeps what it serves and is not to serve it any more is in the way for good. */
  lemma RenameFails(store: Storage, m: Manifests, current: Snapshot, db: Tables, was: Graph, x: Key, i: nat)
    requires m.ErrorFree() && Ready(store, m.Desired(), current, db) && HoldsLists(TableOf(db, AdapterFallbacks), was)
    requires i < |Adapters(m.doc.providers)| == |Owners(m.doc.providers)|
    requires Serves(TableOf(db, ProviderAdapters), x, Owners(m.doc.providers)[i], Adapters(m.doc.providers)[i].capability)
    requires |x| == 1 && x[0] !in Ids(Adapters(m.doc.providers))
    ensures Seeding(store, m, current, db) == Failed(Duplicate)
  {
    ManifestChangeIff(store, m, current, db, was);
    hide Seeding, AfterSeed, HoldsLists, Ready, Adapters, Owners;
    assert Ids(Adapters(m.doc.providers))[i] == Adapters(m.doc.providers)[i].id;
    assert !ListedBefore(Ids(Adapters(m.doc.providers)), x, Adapters(m.doc.providers)[i].id);
  }

  /** Two adapters that exchange what they serve are in each other's way. */
  lemma ExchangeFails(store: Storage, m: Manifests, current: Snapshot, db: Tables, was: Graph, i: nat, j: nat)
    requires m.ErrorFree() && Ready(store, m.Desired(), current, db) && HoldsLists(TableOf(db, AdapterFallbacks), was)
    requires i < j < |Adapters(m.doc.providers)| == |Owners(m.doc.providers)|
    requires var ps := m.doc.providers;
             && Serves(TableOf(db, ProviderAdapters), [Adapters(ps)[j].id], Owners(ps)[i], Adapters(ps)[i].capability)
             && Serves(TableOf(db, ProviderAdapters), [Adapters(ps)[i].id], Owners(ps)[j], Adapters(ps)[j].capability)
    ensures Seeding(store, m, current, db) == Failed(Duplicate)
  {
    ManifestChangeIff(store, m, current, db, was);
    ErrorFreeSetting(store, m, current, db);
    hide Seeding, AfterSeed, HoldsLists, Ready, Adapters, Owners, Serves;
    var ids := Ids(Adapters(m.doc.providers));
    assert ids[i] == Adapters(m.doc.providers)[i].id && ids[j] == Adapters(m.doc.providers)[j].id;
    assert !ListedBefore(ids, [ids[j]], ids[i]) || !ListedBefore(ids, [ids[i]], ids[j]);
  }

  // ---- One manifest after another --------------------------------------------------------------------------

  /** The adapters of a manifest have their places in a table. */
  ghost predicate Placed(ps: seq<Provider>, table: Table)
    requires |Owners(ps)| == |Adapters(ps)|
  {
    forall i :: 0 <= i < |Adapters(ps)| ==> Serves(table, [Adapters(ps)[i].id], Owners(ps)[i], Adapters(ps)[i].capability)
  }

  lemma {:induction false} SeedPlacesAdapters(store: Storage, ps: seq<Provider>, cur: Table)
    requires Distinct(Ids(Adapters(ps)))
    requires WellKeyed(ADAPTERS, Fill(AdapterEntries(ps)).at) && WellKeyed(ADAPTERS, cur)
    requires Faithful(store, ADAPTERS, Fill(AdapterEntries(ps)).at)
    ensures |Owners(ps)| == |Adapters(ps)|
    ensures Placed(ps, AfterTable(store, ADAPTERS, Fill(AdapterEntries(ps)).at, cur))
  {
    EntriesByOwner(ps);
    hide Fill, AdapterEntries, Adapters, Owners, AfterTable, WellKeyed, Faithful;
    var desired := Fill(AdapterEntries(ps)).at;
    forall i | 0 <= i < |Adapters(ps)|
      ensures Serves(AfterTable(store, ADAPTERS, desired, cur), [Adapters(ps)[i].id], Owners(ps)[i], Adapters(ps)[i].capability)
    {
      AdapterFilled(ps, i);
      StoredRow(store, ADAPTERS, desired, cur, [Adapters(ps)[i].id], ProviderId);
      StoredRow(store, ADAPTERS, desired, cur, [Adapters(ps)[i].id], CapabilityId);
    }
  }

  /** What a seed of an error-free manifest leaves: its lists, its adapters in their places, and a
      database that is ready for the next. */
  lemma SeedLeaves(store: Storage, m: Manifests, current: Snapshot, db: Tables, next: Snapshot, later: Snapshot)
    requires m.ErrorFree() && Ready(store, m.Desired(), current, db) && Seeding(store, m, current, db).Done?
    requires FaithfulStorage(TABLE_SPECS, store, next)
    requires Reads(TABLE_SPECS, later, Seeding(store, m, current, db).tables)
    ensures |Owners(m.doc.providers)| == |Adapters(m.doc.providers)|
    ensures var left := Seeding(store, m, current, db).tables;
            && Ready(store, next, later, left)
            && HoldsLists(TableOf(left, AdapterFallbacks), m.Lists())
            && Placed(m.doc.providers, TableOf(left, ProviderAdapters))
  {
    ErrorFreeSetting(store, m, current, db);
    var left := Seeding(store, m, current, db).tables;
    SeedRestore.SeedLeavesSeeded(TABLE_SPECS, store, m.Desired(), current, db);
    SettingRuns(TABLE_SPECS, store, m.Desired(), current, db);
    AfterSeedTable(TABLE_SPECS, store, m.Desired(), db, 3);
    AfterSeedTable(TABLE_SPECS, store, m.Desired(), db, 4);
    SettingTable(TABLE_SPECS, store, m.Desired(), current, db, 3);
    SettingTable(TABLE_SPECS, store, m.Desired(), current, db, 4);
    hide Fill, AdapterEntries, FallbackEntries, Adapters, AfterTable, BuildDesired, Run, StatementsFor, AfterSeed;
    hide WellKeyed, Faithful, HoldsLists, Placed;
    BuilderHoldsLists(Adapters(m.doc.providers));
    SeedHoldsLists(store, Fill(FallbackEntries(Adapters(m.doc.providers))).at, TableOf(db, AdapterFallbacks), m.Lists());
    SeedPlacesAdapters(store, m.doc.providers, TableOf(db, ProviderAdapters));
  }

  lemma SettingTable(specs: seq<TableSpec>, store: Storage, desired: Snapshot, current: Snapshot, db: Tables, i: nat)
    requires SeedSetting(specs, store, desired, current, db) && i < |specs|
    ensures WellKeyed(specs[i], RowsOf(desired, specs[i].name).at) && WellKeyed(specs[i], TableOf(db, specs[i].name))
    ensures Faithful(store, specs[i], RowsOf(desired, specs[i].name).at)
  {
  }

  /** Seeding `next` after `m`: it goes through exactly when the adapters fit what is in the table and,
      list by list, `next` fits `m`. */
  lemma SecondSeedIff(store: Storage, m: Manifests, next: Manifests, current: Snapshot, later: Snapshot, db: Tables)
    requires m.ErrorFree() && Ready(store, m.Desired(), current, db) && Seeding(store, m, current, db).Done?
    requires next.ErrorFree() && FaithfulStorage(TABLE_SPECS, store, next.Desired())
    requires Reads(TABLE_SPECS, later, Seeding(store, m, current, db).tables)
    ensures |Owners(next.doc.providers)| == |Adapters(next.doc.providers)|
    ensures var left := Seeding(store, m, current, db).tables;
            Seeding(store, next, later, left) ==
            if AdaptersFit(next.doc.providers, TableOf(left, ProviderAdapters)) && AllFit(m.Lists(), next.Lists())
            then Result.Done(AfterSeed(TABLE_SPECS, store, next.Desired(), left)) else Failed(Duplicate)
  {
    hide *;
    SeedLeaves(store, m, current, db, next.Desired(), later);
    ManifestChangeIff(store, next, later, Seeding(store, m, current, db).tables, m.Lists());
  }

  /** Adapters that stay where they are fit. */
  lemma {:induction false} SameAdaptersFit(before: seq<Provider>, after: seq<Provider>, table: Table)
    requires AdapterEntries(before) == AdapterEntries(after) && |Owners(before)| == |Adapters(before)|
    requires UniqueTable(ProviderAdapters, table) && Placed(before, table)
    ensures |Owners(after)| == |Adapters(after)| && AdaptersFit(after, table)
  {
    EntriesByOwner(before);
    EntriesByOwner(after);
    hide AdapterEntries, Adapters, Owners;
    forall x, i | 0 <= i < |Adapters(after)| && Serves(table, x, Owners(after)[i], Adapters(after)[i].capability)
      ensures x == [Adapters(after)[i].id]
    {
      var b, a := AdapterEntry(Owners(before)[i], Adapters(before)[i]), AdapterEntry(Owners(after)[i], Adapters(after)[i]);
      assert b.key[0] == a.key[0] && Get(b.row, ProviderId) == Get(a.row, ProviderId) && Get(b.row, CapabilityId) == Get(a.row, CapabilityId);
      assert Serves(table, [Adapters(before)[i].id], Owners(before)[i], Adapters(before)[i].capability);
    }
  }

  /** When a change of manifests leaves the adapters as they are, it goes through exactly when the lists
      fit. */
  lemma OnlyListsChangeIff(store: Storage, m: Manifests, next: Manifests, current: Snapshot, later: Snapshot, db: Tables)
    requires m.ErrorFree() && Ready(store, m.Desired(), current, db) && Seeding(store, m, current, db).Done?
    requires next.ErrorFree() && FaithfulStorage(TABLE_SPECS, store, next.Desired())
    requires Reads(TABLE_SPECS, later, Seeding(store, m, current, db).tables)
    requires AdapterEntries(m.doc.providers) == AdapterEntries(next.doc.providers)
    ensures var left := Seeding(store, m, current, db).tables;
            Seeding(store, next, later, left) ==
            if AllFit(m.Lists(), next.Lists())
            then Result.Done(AfterSeed(TABLE_SPECS, store, next.Desired(), left)) else Failed(Duplicate)
  {
    SecondSeedIff(store, m, next, current, later, db);
    SeedLeaves(store, m, current, db, next.Desired(), later);
    var left := Seeding(store, m, current, db).tables;
    assert UniqueTables(TABLE_SPECS, left) && TABLE_SPECS[3].name == ProviderAdapters;
    hide Seeding, BuildDesired, AfterSeed, AllFit, Ready, UniqueTable;
    SameAdaptersFit(m.doc.providers, next.doc.providers, TableOf(left, ProviderAdapters));
  }

  // ---- Three adapters --------------------------------------------------------------------------------------

  /** Three providers of one capability, each with one adapter; the first falls back as `list` says. */
  function Trio(capability: string, x: string, y: string, z: string, list: seq<string>): Manifests {
    Manifests(
      [Capability(capability, [], [], map[])],
      ProvidersDoc([
        Provider(x, [Adapter(x, capability, list, map[])], map[]),
        Provider(y, [Adapter(y, capability, [], map[])], map[]),
        Provider(z, [Adapter(z, capability, [], map[])], map[])
      ], []),
      Rows([], map[]), Rows([], map[]))
  }

  lemma TrioAdapters(capability: string, x: string, y: string, z: string, list: seq<string>)
    ensures Adapters(Trio(capability, x, y, z, list).doc.providers) ==
            [Adapter(x, capability, list, map[]), Adapter(y, capability, [], map[]), Adapter(z, capability, [], map[])]
    ensures AdapterEntries(Trio(capability, x, y, z, list).doc.providers) ==
            [AdapterEntry(x, Adapter(x, capability, list, map[])), AdapterEntry(y, Adapter(y, capability, [], map[])),
             AdapterEntry(z, Adapter(z, capability, [], map[]))]
  {
    var ps := Trio(capability, x, y, z, list).doc.providers;
    assert ps[..2][..1] == ps[..1] && ps[..1][..0] == [];
    assert Adapters(ps[..1]) == ps[0].adapters && Adapters(ps[..2]) == ps[0].adapters + ps[1].adapters;
    assert AdapterEntries(ps[..1]) == [AdapterEntry(x, ps[0].adapters[0])];
    assert AdapterEntries(ps[..2]) == [AdapterEntry(x, ps[0].adapters[0]), AdapterEntry(y, ps[1].adapters[0])];
  }

  lemma TrioEdges(capability: string, x: string, y: string, z: string, list: seq<string>)
    requires x != y && y != z && x != z
    ensures Trio(capability, x, y, z, list).Lists() == map[x := list, y := [], z := []]
    ensures CapabilityOf(Adapters(Trio(capability, x, y, z, list).doc.providers)) == map[x := capability, y := capability, z := capability]
  {
    TrioAdapters(capability, x, y, z, list);
    var adapters := Adapters(Trio(capability, x, y, z, list).doc.providers);
    hide Adapters;
    assert adapters[..2][..1] == adapters[..1] && adapters[..1][..0] == [];
    assert FallbackEdges(adapters[..1]) == map[x := list];
    assert FallbackEdges(adapters[..2]) == map[x := list, y := []];
    assert CapabilityOf(adapters[..1]) == map[x := capability];
    assert CapabilityOf(adapters[..2]) == map[x := capability, y := capability];
  }

  lemma TrioFallbacks(capability: string, x: string, y: string, z: string, list: seq<string>)
    requires x != y && y != z && x != z && forall f :: f in list ==> f == y || f == z
    ensures FallbackGraphOk(Trio(capability, x, y, z, list).doc)
  {
    TrioAdapters(capability, x, y, z, list);
    TrioEdges(capability, x, y, z, list);
    var adapters := Adapters(Trio(capability, x, y, z, list).doc.providers);
    var g, order := FallbackEdges(adapters), [y, z, x];
    hide Adapters, FallbackEdges, CapabilityOf;
    forall i, b | 0 <= i < |order| && Edge(g, order[i], b) ensures b in order[..i] {
      assert i == 2 && order[..2] == [y, z];
    }
    FinishOrderIsAcyclic(g, order);
    assert forall k :: 0 <= k < |list| ==> list[k] in list;
    assert FallbacksOk(adapters[0], CapabilityOf(adapters));
  }

  lemma TrioUnique(capability: string, x: string, y: string, z: string, list: seq<string>)
    requires x != y && y != z && x != z
    ensures UniqueIds(Trio(capability, x, y, z, list).cs, Trio(capability, x, y, z, list).doc)
  {
    var m := Trio(capability, x, y, z, list);
    TrioAdapters(capability, x, y, z, list);
    hide Adapters;
    assert ProviderIds(m.doc.providers) == [x, y, z] && CapabilityIds(m.cs) == [capability];
  }

  lemma LoneCapability(capability: string)
    ensures CapabilitiesOk([Capability(capability, [], [], map[])])
  {
    var cs := [Capability(capability, [], [], map[])];
    assert cs[..0] == [];
    assert RequiresEdges(cs, AsSet(CapabilityIds(cs))) == map[capability := []];
    ManifestChains.NoEdgesNoCycle(RequiresEdges(cs, AsSet(CapabilityIds(cs))));
    hide RequiresEdges, Acyclic;
  }

  lemma TrioIntegrity(capability: string, x: string, y: string, z: string, list: seq<string>)
    ensures CatalogueIntegrity(Trio(capability, x, y, z, list).cs, Trio(capability, x, y, z, list).doc)
  {
    var m := Trio(capability, x, y, z, list);
    TrioAdapters(capability, x, y, z, list);
    hide Adapters;
    assert CapabilityIds(m.cs)[0] in CapabilityIds(m.cs);
  }

  lemma TrioIsErrorFree(capability: string, x: string, y: string, z: string, list: seq<string>)
    requires x != y && y != z && x != z && forall f :: f in list ==> f == y || f == z
    ensures Trio(capability, x, y, z, list).ErrorFree()
  {
    TrioFallbacks(capability, x, y, z, list);
    TrioUnique(capability, x, y, z, list);
    LoneCapability(capability);
    TrioIntegrity(capability, x, y, z, list);
    ManifestChains.NoEdgesNoCycle(ParentEdges([]));
    hide Adapters, FallbackGraphOk, CapabilitiesOk, UniqueIds, CatalogueIntegrity, Acyclic;
  }

  lemma TrioFitIff(capability: string, x: string, y: string, z: string, was: seq<string>, now: seq<string>)
    requires x != y && y != z && x != z
    ensures AllFit(Trio(capability, x, y, z, was).Lists(), Trio(capability, x, y, z, now).Lists()) <==> Fits(was, now)
  {
    TrioEdges(capability, x, y, z, was);
    TrioEdges(capability, x, y, z, now);
    hide Trio;
    assert Fits([], []);
    var old_, new_ := Trio(capability, x, y, z, was).Lists(), Trio(capability, x, y, z, now).Lists();
    assert x in old_ && x in new_ && old_[x] == was && new_[x] == now;
  }

  /** A change of one list in a database first seeded with another: through exactly when they fit. */
  lemma TrioChangeIff(store: Storage, capability: string, x: string, y: string, z: string, was: seq<string>, now: seq<string>,
                      current: Snapshot, later: Snapshot, db: Tables)
    requires x != y && y != z && x != z
    requires (forall f :: f in was ==> f == y || f == z) && (forall f :: f in now ==> f == y || f == z)
    requires var m, next := Trio(capability, x, y, z, was), Trio(capability, x, y, z, now);
             && Ready(store, m.Desired(), current, db) && Seeding(store, m, current, db).Done?
             && FaithfulStorage(TABLE_SPECS, store, next.Desired())
             && Reads(TABLE_SPECS, later, Seeding(store, m, current, db).tables)
    ensures var m, next := Trio(capability, x, y, z, was), Trio(capability, x, y, z, now);
            var second := Seeding(store, next, later, Seeding(store, m, current, db).tables);
            if Fits(was, now) then second.Done? else second == Failed(Duplicate)
  {
    var m, next := Trio(capability, x, y, z, was), Trio(capability, x, y, z, now);
    TrioIsErrorFree(capability, x, y, z, was);
    TrioIsErrorFree(capability, x, y, z, now);
    TrioAdapters(capability, x, y, z, was);
    TrioAdapters(capability, x, y, z, now);
    TrioFitIff(capability, x, y, z, was, now);
    hide Trio, Seeding, BuildDesired, Fits, AllFit, Ready, Adapters, AfterSeed;
    OnlyListsChangeIff(store, m, next, current, later, db);
  }

  lemma EmptyTakesFirst(store: Storage, m: Manifests, current: Snapshot, db: Tables)
    requires m.ErrorFree() && Ready(store, m.Desired(), current, db)
    requires forall i :: 0 <= i < |TABLE_SPECS| ==> db[TABLE_SPECS[i].name] == map[]
    ensures Seeding(store, m, current, db).Done?
  {
    ErrorFreeSetting(store, m, current, db);
    FirstSeedSucceeds(TABLE_SPECS, store, m.Desired(), current, db);
  }

  lemma ShortListsFit(y: string, z: string)
    requires y != z
    ensures !Fits([y, z], [z, y]) && !Fits([y, z], [z]) && Fits([y, z], [y])
  {
    FitsIffAgree([y, z], [z, y]);
    FitsIffAgree([y, z], [z]);
    FitsIffAgree([y, z], [y]);
    assert [y, z][0] != [z, y][0] && [y, z][0] != [z][0];
  }

  /** An adapter with two fallbacks, seeded into an empty catalogue. Swapping them, or dropping the
      first, stops the next seed at a duplicate; dropping the second goes through. */
  lemma SwapBlocks(store: Storage, capability: string, x: string, y: string, z: string, current: Snapshot, later: Snapshot, db: Tables)
    requires x != y && y != z && x != z
    requires var m := Trio(capability, x, y, z, [y, z]);
             && Ready(store, m.Desired(), current, db)
             && (forall i :: 0 <= i < |TABLE_SPECS| ==> db[TABLE_SPECS[i].name] == map[])
             && FaithfulStorage(TABLE_SPECS, store, Trio(capability, x, y, z, [z, y]).Desired())
             && FaithfulStorage(TABLE_SPECS, store, Trio(capability, x, y, z, [z]).Desired())
             && FaithfulStorage(TABLE_SPECS, store, Trio(capability, x, y, z, [y]).Desired())
             && (Seeding(store, m, current, db).Done? ==> Reads(TABLE_SPECS, later, Seeding(store, m, current, db).tables))
    ensures var first := Seeding(store, Trio(capability, x, y, z, [y, z]), current, db);
            && first.Done?
            && Seeding(store, Trio(capability, x, y, z, [z, y]), later, first.tables) == Failed(Duplicate)
            && Seeding(store, Trio(capability, x, y, z, [z]), later, first.tables) == Failed(Duplicate)
            && Seeding(store, Trio(capability, x, y, z, [y]), later, first.tables).Done?
  {
    hide *;
    TrioIsErrorFree(capability, x, y, z, [y, z]);
    EmptyTakesFirst(store, Trio(capability, x, y, z, [y, z]), current, db);
    ShortListsFit(y, z);
    TrioChangeIff(store, capability, x, y, z, [y, z], [z, y], current, later, db);
    TrioChangeIff(store, capability, x, y, z, [y, z], [z], current, later, db);
    TrioChangeIff(store, capability, x, y, z, [y, z], [y], current, later, db);
  }
}
