/** The rows of a manifest: which there are, what they hold, and that a seed leaves exactly those, with what
    becomes of all others. */
module CatalogueRows {
  import opened Common
  import opened Values
  import opened Manifest
  import opened SeedPlan
  import opened SeedApply
  import opened SeedConvergence
  import opened SeedCatalogue
  import opened SeedConstraints
  import opened SeedDesired
  import opened FallbackLists
  import opened ManifestChanges

  // ---- What the rows of a manifest are -----------------------------------------------------------------------

  /** The columns a manifest gives for a row, but for those the builder sets itself. */
  ghost predicate HasAttributes(row: Row, attributes: Row, own: set<Column>) {
    forall c :: c in attributes && c !in own ==> SameValue(attributes[c], Get(row, c))
  }

  ghost predicate IsCapabilityRow(row: Row, c: Capability) {
    Get(row, Id) == Text(c.id) && HasAttributes(row, c.attributes, {Id})
  }

  ghost predicate IsProviderRow(row: Row, p: Provider) {
    Get(row, Id) == Text(p.id) && Get(row, Enabled) == Bool(true) && HasAttributes(row, p.attributes, {Id, Enabled})
  }

  ghost predicate IsAdapterRow(row: Row, p: Provider, a: Adapter) {
    && Get(row, Id) == Text(a.id) && Get(row, ProviderId) == Text(p.id) && Get(row, CapabilityId) == Text(a.capability)
    && Get(row, Enabled) == Bool(true) && HasAttributes(row, a.attributes, {Id, ProviderId, CapabilityId, Enabled})
  }

  ghost predicate IsDependencyRow(row: Row, c: string, dep: string, kind: string) {
    Get(row, CapabilityId) == Text(c) && Get(row, DependsOnId) == Text(dep) && Get(row, Kind) == Text(kind)
  }

  ghost predicate HoldsCapabilities(table: Table, cs: seq<Capability>) {
    forall i :: 0 <= i < |cs| ==> [cs[i].id] in table && IsCapabilityRow(table[[cs[i].id]], cs[i])
  }

  ghost predicate HoldsProviders(table: Table, ps: seq<Provider>) {
    forall i :: 0 <= i < |ps| ==> [ps[i].id] in table && IsProviderRow(table[[ps[i].id]], ps[i])
  }

  ghost predicate HoldsAdapters(table: Table, ps: seq<Provider>) {
    forall i, j :: 0 <= i < |ps| && 0 <= j < |ps[i].adapters| ==>
      [ps[i].adapters[j].id] in table && IsAdapterRow(table[[ps[i].adapters[j].id]], ps[i], ps[i].adapters[j])
  }

  /** Some capability names the dependency in its list of that kind. */
  ghost predicate IsDependencyKey(cs: seq<Capability>, k: Key) {
    exists i, dep :: 0 <= i < |cs| && (
      (dep in cs[i].requires_ && k == [cs[i].id, dep, "requires"]) ||
      (dep in cs[i].optional && k == [cs[i].id, dep, "optional"]))
  }

  /** Exactly the manifest's dependencies, each with its columns. */
  ghost predicate HoldsDependencies(table: Table, cs: seq<Capability>) {
    && (forall k :: k in table <==> IsDependencyKey(cs, k))
    && (forall k :: k in table ==> |k| == 3 && IsDependencyRow(table[k], k[0], k[1], k[2]))
  }

  /** Exactly the manifest's fallbacks. */
  ghost predicate HoldsFallbacks(table: Table, adapters: seq<Adapter>) {
    && HoldsLists(table, FallbackEdges(adapters))
    && forall k :: k in table ==> |k| == 2 && Get(table[k], FallbackAdapterId) == Text(k[1]) && Get(table[k], Reason) == Null
  }

  ghost predicate NamesCapability(cs: seq<Capability>, k: Key) {
    exists i :: 0 <= i < |cs| && k == [cs[i].id]
  }

  ghost predicate NamesProvider(ps: seq<Provider>, k: Key) {
    exists i :: 0 <= i < |ps| && k == [ps[i].id]
  }

  ghost predicate NamesAdapter(ps: seq<Provider>, k: Key) {
    exists i, j :: 0 <= i < |ps| && 0 <= j < |ps[i].adapters| && k == [ps[i].adapters[j].id]
  }

  // ---- What the builders make --------------------------------------------------------------------------------

  /** `found` has, up to how numbers are held, every column of `want`. */
  ghost predicate Carries(found: Row, want: Row) {
    forall c :: c in want ==> SameValue(want[c], Get(found, c))
  }

  ghost predicate TableCarries(found: Table, want: Table) {
    forall k :: k in want ==> k in found && Carries(found[k], want[k])
  }

  lemma CarriesItself(table: Table)
    ensures TableCarries(table, table)
  {
    forall k, c | k in table && c in table[k] ensures SameValue(table[k][c], Get(table[k], c)) {
      SameCanonIff(table[k][c], table[k][c]);
    }
  }

  lemma CapabilityCarried(found: Row, c: Capability)
    requires Carries(found, CapabilityEntry(c).row)
    ensures IsCapabilityRow(found, c)
  {
    var want := CapabilityEntry(c).row;
    assert Id in want && want[Id] == Text(c.id);
    assert forall col :: col in c.attributes && col != Id ==> col in want && want[col] == c.attributes[col];
  }

  lemma ProviderCarried(found: Row, p: Provider)
    requires Carries(found, ProviderEntry(p).row)
    ensures IsProviderRow(found, p)
  {
    var want := ProviderEntry(p).row;
    assert Id in want && want[Id] == Text(p.id) && Enabled in want && want[Enabled] == Bool(true);
    assert forall col :: col in p.attributes && col !in {Id, Enabled} ==> col in want && want[col] == p.attributes[col];
  }

  lemma AdapterCarried(found: Row, p: Provider, a: Adapter)
    requires Carries(found, AdapterEntry(p.id, a).row)
    ensures IsAdapterRow(found, p, a)
  {
    var want := AdapterEntry(p.id, a).row;
    assert Id in want && ProviderId in want && CapabilityId in want && Enabled in want;
    assert forall col :: col in a.attributes && col !in {Id, ProviderId, CapabilityId, Enabled} ==>
             col in want && want[col] == a.attributes[col];
  }

  lemma DependencyCarried(found: Row, c: string, dep: string, kind: string)
    requires Carries(found, DependencyEntry(c, dep, kind).row)
    ensures IsDependencyRow(found, c, dep, kind)
  {
    var want := DependencyEntry(c, dep, kind).row;
    assert CapabilityId in want && DependsOnId in want && Kind in want;
  }

  lemma FallbackCarried(found: Row, a: string, fb: string, ordinal: nat)
    requires Carries(found, FallbackEntry(a, fb, ordinal).row)
    ensures Get(found, FallbackAdapterId) == Text(fb) && Get(found, Reason) == Null
  {
    var want := FallbackEntry(a, fb, ordinal).row;
    assert FallbackAdapterId in want && Reason in want;
  }

  /** With distinct keys every entry is a row. */
  lemma {:induction false} EntryIsRow(entries: seq<Entry>, i: nat)
    requires Distinct(KeysOf(entries)) && i < |entries|
    ensures entries[i].key in Fill(entries).at && Fill(entries).at[entries[i].key] == entries[i].row
  {
    hide Fill;
    assert forall j :: i < j < |entries| ==> entries[j].key == KeysOf(entries)[j] && entries[i].key == KeysOf(entries)[i];
    FillLast(entries, i);
  }

  lemma {:induction false} CapabilitiesBuilt(cs: seq<Capability>, found: Table)
    requires Distinct(CapabilityIds(cs)) && TableCarries(found, Fill(CapabilityEntries(cs)).at)
    ensures HoldsCapabilities(found, cs)
    ensures forall k :: k in Fill(CapabilityEntries(cs)).at <==> NamesCapability(cs, k)
  {
    var entries := CapabilityEntries(cs);
    FillKeys(entries);
    hide Fill, IsCapabilityRow, Carries;
    assert forall i :: 0 <= i < |cs| ==> KeysOf(entries)[i] == [CapabilityIds(cs)[i]];
    forall i | 0 <= i < |cs| ensures [cs[i].id] in found && IsCapabilityRow(found[[cs[i].id]], cs[i]) {
      EntryIsRow(entries, i);
      assert entries[i] == CapabilityEntry(cs[i]);
      CapabilityCarried(found[[cs[i].id]], cs[i]);
    }
    assert forall i :: 0 <= i < |cs| ==> KeysOf(entries)[i] == [cs[i].id];
  }

  lemma {:induction false} ProvidersBuilt(ps: seq<Provider>, found: Table)
    requires Distinct(ProviderIds(ps)) && TableCarries(found, Fill(ProviderEntries(ps)).at)
    ensures HoldsProviders(found, ps)
    ensures forall k :: k in Fill(ProviderEntries(ps)).at <==> NamesProvider(ps, k)
  {
    var entries := ProviderEntries(ps);
    FillKeys(entries);
    hide Fill, IsProviderRow, Carries;
    assert forall i :: 0 <= i < |ps| ==> KeysOf(entries)[i] == [ProviderIds(ps)[i]];
    forall i | 0 <= i < |ps| ensures [ps[i].id] in found && IsProviderRow(found[[ps[i].id]], ps[i]) {
      EntryIsRow(entries, i);
      assert entries[i] == ProviderEntry(ps[i]);
      ProviderCarried(found[[ps[i].id]], ps[i]);
    }
    assert forall i :: 0 <= i < |ps| ==> KeysOf(entries)[i] == [ps[i].id];
  }

  /** The entry of an adapter, from its place under its provider. */
  lemma {:induction false} AdapterPlace(ps: seq<Provider>, i: nat, j: nat) returns (n: nat)
    requires i < |ps| && j < |ps[i].adapters|
    ensures n < |AdapterEntries(ps)| && AdapterEntries(ps)[n] == AdapterEntry(ps[i].id, ps[i].adapters[j])
  {
    var last := |ps| - 1;
    if i < last {
      n := AdapterPlace(ps[..last], i, j);
    } else {
      n := |AdapterEntries(ps[..last])| + j;
    }
  }

  lemma {:induction false} AdapterKeysDistinct(ps: seq<Provider>)
    requires Distinct(Ids(Adapters(ps)))
    ensures Distinct(KeysOf(AdapterEntries(ps)))
  {
    EntriesByOwner(ps);
    hide AdapterEntries, Adapters, Owners;
    var keys := KeysOf(AdapterEntries(ps));
    assert forall n :: 0 <= n < |keys| ==> keys[n] == [Ids(Adapters(ps))[n]];
  }

  lemma {:induction false} AdaptersBuilt(ps: seq<Provider>, found: Table)
    requires Distinct(Ids(Adapters(ps))) && TableCarries(found, Fill(AdapterEntries(ps)).at)
    ensures HoldsAdapters(found, ps)
    ensures forall k :: k in Fill(AdapterEntries(ps)).at <==> NamesAdapter(ps, k)
  {
    AdapterKeysDistinct(ps);
    hide Fill, AdapterEntries, Adapters, IsAdapterRow, Carries;
    forall i, j | 0 <= i < |ps| && 0 <= j < |ps[i].adapters|
      ensures [ps[i].adapters[j].id] in Fill(AdapterEntries(ps)).at
      ensures [ps[i].adapters[j].id] in found && IsAdapterRow(found[[ps[i].adapters[j].id]], ps[i], ps[i].adapters[j])
    {
      var n := AdapterPlace(ps, i, j);
      EntryIsRow(AdapterEntries(ps), n);
      AdapterCarried(found[[ps[i].adapters[j].id]], ps[i], ps[i].adapters[j]);
    }
    forall k | k in Fill(AdapterEntries(ps)).at ensures NamesAdapter(ps, k) {
      var i, j := AdapterRow(ps, k);
    }
  }

  /** Every dependency a capability lists has its entry. */
  lemma {:induction false} DependencyListed(cs: seq<Capability>, i: nat, dep: string, kind: string)
    requires i < |cs| && IsDependency(cs[i], dep, kind)
    ensures [cs[i].id, dep, kind] in KeysOf(DependencyEntries(cs))
  {
    var last := |cs| - 1;
    var front, c := DependencyEntries(cs[..last]), cs[last];
    var entries := DependencyEntries(cs);
    if i < last {
      DependencyListed(cs[..last], i, dep, kind);
      var n :| 0 <= n < |front| && KeysOf(front)[n] == [cs[i].id, dep, kind];
      assert KeysOf(entries)[n] == KeysOf(front)[n];
    } else if kind == "requires" {
      var n :| 0 <= n < |c.requires_| && c.requires_[n] == dep;
      assert KeysOf(entries)[|front| + n] == [cs[i].id, dep, kind];
    } else {
      var n :| 0 <= n < |c.optional| && c.optional[n] == dep;
      assert KeysOf(entries)[|front| + |c.requires_| + n] == [cs[i].id, dep, kind];
    }
  }

  lemma {:induction false} DependencyKeyBuilt(cs: seq<Capability>, k: Key)
    requires IsDependencyKey(cs, k)
    ensures k in Fill(DependencyEntries(cs)).at
  {
    hide Fill, DependencyEntries;
    var i, dep :| 0 <= i < |cs| && (
      (dep in cs[i].requires_ && k == [cs[i].id, dep, "requires"]) ||
      (dep in cs[i].optional && k == [cs[i].id, dep, "optional"]));
    FillKeys(DependencyEntries(cs));
    DependencyListed(cs, i, dep, k[2]);
    assert k == [cs[i].id, dep, k[2]];
  }

  lemma {:induction false} DependencyRowBuilt(cs: seq<Capability>, found: Table, k: Key)
    requires TableCarries(found, Fill(DependencyEntries(cs)).at) && k in Fill(DependencyEntries(cs)).at
    ensures IsDependencyKey(cs, k) && |k| == 3 && IsDependencyRow(found[k], k[0], k[1], k[2])
  {
    hide Fill, DependencyEntries, IsDependencyRow, Carries;
    var i, dep, kind := DependencyRow(cs, k);
    assert k == [cs[i].id, dep, kind];
    DependencyCarried(found[k], cs[i].id, dep, kind);
  }

  lemma {:induction false} DependenciesBuilt(cs: seq<Capability>, found: Table)
    requires TableCarries(found, Fill(DependencyEntries(cs)).at) && found.Keys == Fill(DependencyEntries(cs)).at.Keys
    ensures HoldsDependencies(found, cs)
  {
    hide Fill, DependencyEntries, IsDependencyRow, IsDependencyKey, TableCarries;
    forall k | IsDependencyKey(cs, k) ensures k in found {
      DependencyKeyBuilt(cs, k);
    }
    forall k | k in found ensures IsDependencyKey(cs, k) && |k| == 3 && IsDependencyRow(found[k], k[0], k[1], k[2]) {
      assert k in Fill(DependencyEntries(cs)).at;
      DependencyRowBuilt(cs, found, k);
    }
  }

  lemma {:induction false} FallbacksBuilt(adapters: seq<Adapter>, found: Table)
    requires TableCarries(found, Fill(FallbackEntries(adapters)).at) && found.Keys == Fill(FallbackEntries(adapters)).at.Keys
    requires HoldsLists(found, FallbackEdges(adapters))
    ensures HoldsFallbacks(found, adapters)
  {
    var rows := Fill(FallbackEntries(adapters)).at;
    hide Fill, FallbackEntries, Carries, FallbackEdges;
    forall k | k in found ensures |k| == 2 && Get(found[k], FallbackAdapterId) == Text(k[1]) && Get(found[k], Reason) == Null {
      assert k in rows;
      var a, j := FallbackRow(adapters, k);
      FallbackCarried(found[k], adapters[a].id, adapters[a].fallback[j], j);
    }
  }

  /** The rows built from an error-free manifest are exactly its capabilities, dependencies, providers,
      adapters and fallbacks, each with its columns. */
  lemma {:induction false} BuilderHoldsCatalogue(m: Manifests)
    requires m.ErrorFree()
    ensures var d := m.Desired();
            && HoldsCapabilities(RowsOf(d, Capabilities).at, m.cs)
            && (forall k :: k in RowsOf(d, Capabilities).at <==> NamesCapability(m.cs, k))
            && HoldsDependencies(RowsOf(d, CapabilityDependencies).at, m.cs)
            && HoldsProviders(RowsOf(d, Providers).at, m.doc.providers)
            && (forall k :: k in RowsOf(d, Providers).at <==> NamesProvider(m.doc.providers, k))
            && HoldsAdapters(RowsOf(d, ProviderAdapters).at, m.doc.providers)
            && (forall k :: k in RowsOf(d, ProviderAdapters).at <==> NamesAdapter(m.doc.providers, k))
            && HoldsFallbacks(RowsOf(d, AdapterFallbacks).at, Adapters(m.doc.providers))
  {
    var d, ps := m.Desired(), m.doc.providers;
    IdsAreDistinct(m);
    DesiredTables(m.cs, m.doc, m.routing, m.devices);
    NamesOfSpecs();
    hide *;
    CarriesItself(Fill(CapabilityEntries(m.cs)).at);
    CarriesItself(Fill(DependencyEntries(m.cs)).at);
    CarriesItself(Fill(ProviderEntries(ps)).at);
    CarriesItself(Fill(AdapterEntries(ps)).at);
    CarriesItself(Fill(FallbackEntries(Adapters(ps))).at);
    CapabilitiesBuilt(m.cs, Fill(CapabilityEntries(m.cs)).at);
    DependenciesBuilt(m.cs, Fill(DependencyEntries(m.cs)).at);
    ProvidersBuilt(ps, Fill(ProviderEntries(ps)).at);
    AdaptersBuilt(ps, Fill(AdapterEntries(ps)).at);
    BuilderHoldsLists(Adapters(ps));
    FallbacksBuilt(Adapters(ps), Fill(FallbackEntries(Adapters(ps))).at);
  }

  lemma IdsAreDistinct(m: Manifests)
    requires m.ErrorFree()
    ensures Distinct(CapabilityIds(m.cs)) && Distinct(ProviderIds(m.doc.providers)) && Distinct(Ids(Adapters(m.doc.providers)))
    ensures m.Desired() == BuildDesired(m.cs, m.doc, m.routing, m.devices) && GivenRows(m.routing, m.devices)
  {
    hide BuildDesired, Adapters;
  }

  lemma NamesOfSpecs()
    ensures |TABLE_SPECS| == 7
    ensures TABLE_SPECS[0].name == Capabilities && TABLE_SPECS[1].name == CapabilityDependencies
    ensures TABLE_SPECS[2].name == Providers && TABLE_SPECS[3].name == ProviderAdapters
    ensures TABLE_SPECS[4].name == AdapterFallbacks && TABLE_SPECS[5].name == RoutingPolicies
    ensures TABLE_SPECS[6].name == DeviceProfiles
  {
  }

  // ---- What a seed leaves ------------------------------------------------------------------------------------

  /** The row is where it was, as it was. */
  ghost predicate IsKept(left: Table, was: Table, k: Key) {
    (k in left <==> k in was) && (k in left ==> left[k] == was[k])
  }

  /** The row is where it was, as it was but for not being enabled. */
  ghost predicate IsOff(left: Table, was: Table, k: Key) {
    && (k in left <==> k in was)
    && (k in left ==> Get(left[k], Enabled) != Bool(true) && forall c :: c != Enabled ==> Get(left[k], c) == Get(was[k], c))
  }

  lemma Lands(store: Storage, spec: TableSpec, desired: map<Key, Row>, cur: Table)
    requires WellKeyed(spec, desired) && WellKeyed(spec, cur) && Faithful(store, spec, desired)
    ensures var left := AfterTable(store, spec, desired, cur);
            && TableCarries(left, desired)
            && (spec.removal == Delete ==> left.Keys == desired.Keys)
            && (spec.removal == Disable ==> forall k :: k !in desired ==> IsOff(left, cur, k))
            && (spec.removal == Retain ==> forall k :: k !in desired ==> IsKept(left, cur, k))
  {
    var left := AfterTable(store, spec, desired, cur);
    forall k
      ensures k in desired ==> k in left && Carries(left[k], desired[k])
      ensures k !in desired && spec.removal == Delete ==> k !in left
      ensures k !in desired && spec.removal == Disable ==> IsOff(left, cur, k)
      ensures k !in desired && spec.removal == Retain ==> IsKept(left, cur, k)
    {
      RowByRow(store, spec, desired, cur, k);
      hide AfterTable, WellKeyed, Faithful, Canon, SameValue;
      if k in desired {
        forall c | c in desired[k] ensures SameValue(desired[k][c], Get(left[k], c)) {
          SameCanonIff(desired[k][c], Get(left[k], c));
        }
      }
    }
  }

  /** The table at place `i` of the specs, before and after a seed that goes through. */
  lemma TableLands(store: Storage, m: Manifests, current: Snapshot, db: Tables, i: nat)
    requires m.ErrorFree() && Ready(store, m.Desired(), current, db) && Seeding(store, m, current, db).Done? && i < |TABLE_SPECS|
    ensures var spec := TABLE_SPECS[i];
            var desired, was := RowsOf(m.Desired(), spec.name).at, TableOf(db, spec.name);
            && WellKeyed(spec, desired) && WellKeyed(spec, was) && Faithful(store, spec, desired)
            && TableOf(Seeding(store, m, current, db).tables, spec.name) == AfterTable(store, spec, desired, was)
  {
    ErrorFreeSetting(store, m, current, db);
    SettingRuns(TABLE_SPECS, store, m.Desired(), current, db);
    SettingTable(TABLE_SPECS, store, m.Desired(), current, db, i);
    hide AfterTable, BuildDesired, Run, StatementsFor, AfterSeed, WellKeyed, Faithful;
    AfterSeedTable(TABLE_SPECS, store, m.Desired(), db, i);
  }

  /** Capabilities: those of the manifest are there with its columns, and all others stay as they were. */
  lemma {:induction false} SeedHoldsCapabilities(store: Storage, m: Manifests, current: Snapshot, db: Tables)
    requires m.ErrorFree() && Ready(store, m.Desired(), current, db) && Seeding(store, m, current, db).Done?
    ensures var left, was := TableOf(Seeding(store, m, current, db).tables, Capabilities), TableOf(db, Capabilities);
            HoldsCapabilities(left, m.cs) && forall k :: !NamesCapability(m.cs, k) ==> IsKept(left, was, k)
  {
    DesiredTables(m.cs, m.doc, m.routing, m.devices);
    IdsAreDistinct(m);
    TableLands(store, m, current, db, 0);
    hide *;
    NamesOfSpecs();
    RemovalsOfSpecs();
    Lands(store, TABLE_SPECS[0], RowsOf(m.Desired(), Capabilities).at, TableOf(db, Capabilities));
    CapabilitiesBuilt(m.cs, TableOf(Seeding(store, m, current, db).tables, Capabilities));
  }

  /** Dependencies: exactly those of the manifest, whatever was there. */
  lemma {:induction false} SeedHoldsDependencies(store: Storage, m: Manifests, current: Snapshot, db: Tables)
    requires m.ErrorFree() && Ready(store, m.Desired(), current, db) && Seeding(store, m, current, db).Done?
    ensures HoldsDependencies(TableOf(Seeding(store, m, current, db).tables, CapabilityDependencies), m.cs)
  {
    DesiredTables(m.cs, m.doc, m.routing, m.devices);
    IdsAreDistinct(m);
    TableLands(store, m, current, db, 1);
    hide *;
    NamesOfSpecs();
    RemovalsOfSpecs();
    Lands(store, TABLE_SPECS[1], RowsOf(m.Desired(), CapabilityDependencies).at, TableOf(db, CapabilityDependencies));
    DependenciesBuilt(m.cs, TableOf(Seeding(store, m, current, db).tables, CapabilityDependencies));
  }

  /** Providers: those of the manifest are there and enabled, and all others stay but are not enabled. */
  lemma {:induction false} SeedHoldsProviders(store: Storage, m: Manifests, current: Snapshot, db: Tables)
    requires m.ErrorFree() && Ready(store, m.Desired(), current, db) && Seeding(store, m, current, db).Done?
    ensures var left, was := TableOf(Seeding(store, m, current, db).tables, Providers), TableOf(db, Providers);
            HoldsProviders(left, m.doc.providers) && forall k :: !NamesProvider(m.doc.providers, k) ==> IsOff(left, was, k)
  {
    DesiredTables(m.cs, m.doc, m.routing, m.devices);
    IdsAreDistinct(m);
    TableLands(store, m, current, db, 2);
    hide *;
    NamesOfSpecs();
    RemovalsOfSpecs();
    Lands(store, TABLE_SPECS[2], RowsOf(m.Desired(), Providers).at, TableOf(db, Providers));
    ProvidersBuilt(m.doc.providers, TableOf(Seeding(store, m, current, db).tables, Providers));
  }

  /** Adapters: likewise. */
  lemma {:induction false} SeedHoldsAdapters(store: Storage, m: Manifests, current: Snapshot, db: Tables)
    requires m.ErrorFree() && Ready(store, m.Desired(), current, db) && Seeding(store, m, current, db).Done?
    ensures var left, was := TableOf(Seeding(store, m, current, db).tables, ProviderAdapters), TableOf(db, ProviderAdapters);
            HoldsAdapters(left, m.doc.providers) && forall k :: !NamesAdapter(m.doc.providers, k) ==> IsOff(left, was, k)
  {
    DesiredTables(m.cs, m.doc, m.routing, m.devices);
    IdsAreDistinct(m);
    TableLands(store, m, current, db, 3);
    hide *;
    NamesOfSpecs();
    RemovalsOfSpecs();
    Lands(store, TABLE_SPECS[3], RowsOf(m.Desired(), ProviderAdapters).at, TableOf(db, ProviderAdapters));
    AdaptersBuilt(m.doc.providers, TableOf(Seeding(store, m, current, db).tables, ProviderAdapters));
  }

  /** Fallbacks: exactly those of the manifest. */
  lemma {:induction false} SeedHoldsFallbacks(store: Storage, m: Manifests, current: Snapshot, db: Tables)
    requires m.ErrorFree() && Ready(store, m.Desired(), current, db) && Seeding(store, m, current, db).Done?
    ensures HoldsFallbacks(TableOf(Seeding(store, m, current, db).tables, AdapterFallbacks), Adapters(m.doc.providers))
  {
    DesiredTables(m.cs, m.doc, m.routing, m.devices);
    IdsAreDistinct(m);
    TableLands(store, m, current, db, 4);
    hide *;
    NamesOfSpecs();
    RemovalsOfSpecs();
    var adapters := Adapters(m.doc.providers);
    BuilderHoldsLists(adapters);
    Lands(store, TABLE_SPECS[4], RowsOf(m.Desired(), AdapterFallbacks).at, TableOf(db, AdapterFallbacks));
    FallbacksSpec();
    SeedHoldsLists(store, Fill(FallbackEntries(adapters)).at, TableOf(db, AdapterFallbacks), FallbackEdges(adapters));
    FallbacksBuilt(adapters, TableOf(Seeding(store, m, current, db).tables, AdapterFallbacks));
  }

  /** Routing policies and device profiles: the given rows are there, and all others stay as they were. */
  lemma {:induction false} SeedHoldsGiven(store: Storage, m: Manifests, current: Snapshot, db: Tables)
    requires m.ErrorFree() && Ready(store, m.Desired(), current, db) && Seeding(store, m, current, db).Done?
    ensures var left := Seeding(store, m, current, db).tables;
            && TableCarries(TableOf(left, RoutingPolicies), m.routing.at)
            && (forall k :: k !in m.routing.at ==> IsKept(TableOf(left, RoutingPolicies), TableOf(db, RoutingPolicies), k))
            && TableCarries(TableOf(left, DeviceProfiles), m.devices.at)
            && (forall k :: k !in m.devices.at ==> IsKept(TableOf(left, DeviceProfiles), TableOf(db, DeviceProfiles), k))
  {
    DesiredTables(m.cs, m.doc, m.routing, m.devices);
    IdsAreDistinct(m);
    TableLands(store, m, current, db, 5);
    TableLands(store, m, current, db, 6);
    hide *;
    NamesOfSpecs();
    RemovalsOfSpecs();
    Lands(store, TABLE_SPECS[5], m.routing.at, TableOf(db, RoutingPolicies));
    Lands(store, TABLE_SPECS[6], m.devices.at, TableOf(db, DeviceProfiles));
  }

  lemma FallbacksSpec()
    ensures FALLBACKS == TABLE_SPECS[4]
  {
  }

  lemma RemovalsOfSpecs()
    ensures |TABLE_SPECS| == 7
    ensures TABLE_SPECS[0].removal == TABLE_SPECS[5].removal == TABLE_SPECS[6].removal == Retain
    ensures TABLE_SPECS[1].removal == TABLE_SPECS[4].removal == Delete
    ensures TABLE_SPECS[2].removal == TABLE_SPECS[3].removal == Disable
  {
  }
}
