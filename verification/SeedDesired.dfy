/** The desired rows of a manifest, and what an error-free manifest guarantees about them. */
module SeedDesired {
  import opened Common
  import opened Values
  import opened Manifest
  import opened SeedPlan
  import opened SeedApply
  import opened SeedConvergence
  import opened SeedCatalogue
  import opened SeedConstraints
  import opened SeedCollisions

  datatype Entry = Entry(key: Key, row: Row)

  /** Filling a dictionary entry by entry: a repeated key keeps its place and takes the new row. */
  function Fill(entries: seq<Entry>): Rows {
    if entries == [] then Rows([], map[])
    else
      var before, last := Fill(entries[..|entries| - 1]), entries[|entries| - 1];
      Rows(if last.key in before.at then before.order else before.order + [last.key], before.at[last.key := last.row])
  }

  lemma {:induction false} FillValid(entries: seq<Entry>)
    ensures Fill(entries).Valid()
  {
    if entries != [] {
      FillValid(entries[..|entries| - 1]);
    }
  }

  /** A row comes from an entry. */
  lemma {:induction false} FillOrigin(entries: seq<Entry>, k: Key) returns (i: nat)
    requires k in Fill(entries).at
    ensures i < |entries| && entries[i] == Entry(k, Fill(entries).at[k])
  {
    var n := |entries| - 1;
    if k == entries[n].key {
      i := n;
    } else {
      i := FillOrigin(entries[..n], k);
    }
  }

  /** And every entry has a row. */
  lemma {:induction false} FillHas(entries: seq<Entry>, i: nat)
    requires i < |entries|
    ensures entries[i].key in Fill(entries).at
  {
    var n := |entries| - 1;
    if i < n {
      FillHas(entries[..n], i);
    }
  }

  lemma {:induction false} Filled(entries: seq<Entry>)
    ensures Fill(entries).Valid()
    ensures forall k :: k in Fill(entries).at ==> exists i :: 0 <= i < |entries| && entries[i] == Entry(k, Fill(entries).at[k])
    ensures forall i :: 0 <= i < |entries| ==> entries[i].key in Fill(entries).at
  {
    hide Fill;
    FillValid(entries);
    forall k | k in Fill(entries).at
      ensures exists i :: 0 <= i < |entries| && entries[i] == Entry(k, Fill(entries).at[k])
    {
      var i := FillOrigin(entries, k);
    }
    forall i | 0 <= i < |entries| ensures entries[i].key in Fill(entries).at {
      FillHas(entries, i);
    }
  }

  // ---- Row builders ----------------------------------------------------------------------------------

  function CapabilityEntry(c: Capability): Entry {
    Entry([c.id], c.attributes + map[Id := Text(c.id)])
  }

  function DependencyEntry(c: string, dep: string, kind: string): Entry {
    Entry([c, dep, kind], map[CapabilityId := Text(c), DependsOnId := Text(dep), Kind := Text(kind)])
  }

  function ProviderEntry(p: Provider): Entry {
    Entry([p.id], p.attributes + map[Id := Text(p.id), Enabled := Bool(true)])
  }

  function AdapterEntry(provider: string, a: Adapter): Entry {
    Entry([a.id], a.attributes + map[Id := Text(a.id), ProviderId := Text(provider),
                                     CapabilityId := Text(a.capability), Enabled := Bool(true)])
  }

  function FallbackEntry(a: string, fb: string, ordinal: nat): Entry {
    Entry([a, fb], map[AdapterId := Text(a), FallbackAdapterId := Text(fb), Reason := Null, Ordinal := Int(ordinal)])
  }

  function CapabilityEntries(cs: seq<Capability>): seq<Entry> {
    seq(|cs|, i requires 0 <= i < |cs| => CapabilityEntry(cs[i]))
  }

  function DependencyEntries(cs: seq<Capability>): seq<Entry> {
    if cs == [] then []
    else
      var c := cs[|cs| - 1];
      DependencyEntries(cs[..|cs| - 1])
      + seq(|c.requires_|, i requires 0 <= i < |c.requires_| => DependencyEntry(c.id, c.requires_[i], "requires"))
      + seq(|c.optional|, i requires 0 <= i < |c.optional| => DependencyEntry(c.id, c.optional[i], "optional"))
  }

  function ProviderEntries(ps: seq<Provider>): seq<Entry> {
    seq(|ps|, i requires 0 <= i < |ps| => ProviderEntry(ps[i]))
  }

  function AdapterEntries(ps: seq<Provider>): seq<Entry> {
    if ps == [] then []
    else
      var p := ps[|ps| - 1];
      AdapterEntries(ps[..|ps| - 1]) + seq(|p.adapters|, i requires 0 <= i < |p.adapters| => AdapterEntry(p.id, p.adapters[i]))
  }

  function FallbackEntries(adapters: seq<Adapter>): seq<Entry> {
    if adapters == [] then []
    else
      var a := adapters[|adapters| - 1];
      FallbackEntries(adapters[..|adapters| - 1])
      + seq(|a.fallback|, i requires 0 <= i < |a.fallback| => FallbackEntry(a.id, a.fallback[i], i))
  }

  /** Routing policies and device profiles carry no reference and no second key: they are given. */
  function BuildDesired(cs: seq<Capability>, doc: ProvidersDoc, routing: Rows, devices: Rows): Snapshot {
    map[
      Capabilities := Fill(CapabilityEntries(cs)),
      CapabilityDependencies := Fill(DependencyEntries(cs)),
      Providers := Fill(ProviderEntries(doc.providers)),
      ProviderAdapters := Fill(AdapterEntries(doc.providers)),
      AdapterFallbacks := Fill(FallbackEntries(Adapters(doc.providers))),
      RoutingPolicies := routing,
      DeviceProfiles := devices
    ]
  }

  // ---- Where each entry comes from ---------------------------------------------------------------------

  /** A dependency row is of one of the two kinds, by the list that names it. */
  ghost predicate IsDependency(c: Capability, dep: string, kind: string) {
    (kind == "requires" && dep in c.requires_) || (kind == "optional" && dep in c.optional)
  }

  lemma {:induction false} DependencyOrigin(cs: seq<Capability>, i: nat)
    requires i < |DependencyEntries(cs)|
    ensures exists k, dep, kind :: 0 <= k < |cs| && DependencyEntries(cs)[i] == DependencyEntry(cs[k].id, dep, kind) &&
              IsDependency(cs[k], dep, kind)
  {
    var front, c := cs[..|cs| - 1], cs[|cs| - 1];
    var n := |DependencyEntries(front)|;
    if i < n {
      DependencyOrigin(front, i);
      var k, dep, kind :| 0 <= k < |front| && DependencyEntries(front)[i] == DependencyEntry(front[k].id, dep, kind) &&
        IsDependency(front[k], dep, kind);
      assert cs[k] == front[k];
    } else if i < n + |c.requires_| {
      assert DependencyEntries(cs)[i] == DependencyEntry(cs[|cs| - 1].id, c.requires_[i - n], "requires");
      assert IsDependency(cs[|cs| - 1], c.requires_[i - n], "requires");
    } else {
      assert DependencyEntries(cs)[i] == DependencyEntry(cs[|cs| - 1].id, c.optional[i - n - |c.requires_|], "optional");
      assert IsDependency(cs[|cs| - 1], c.optional[i - n - |c.requires_|], "optional");
    }
  }

  lemma {:induction false} AdapterOrigin(ps: seq<Provider>, i: nat)
    requires i < |AdapterEntries(ps)|
    ensures exists k, j :: 0 <= k < |ps| && 0 <= j < |ps[k].adapters| && AdapterEntries(ps)[i] == AdapterEntry(ps[k].id, ps[k].adapters[j])
  {
    var front, p := ps[..|ps| - 1], ps[|ps| - 1];
    var n := |AdapterEntries(front)|;
    if i < n {
      AdapterOrigin(front, i);
      var k, j :| 0 <= k < |front| && 0 <= j < |front[k].adapters| &&
        AdapterEntries(front)[i] == AdapterEntry(front[k].id, front[k].adapters[j]);
      assert ps[k] == front[k];
    } else {
      assert AdapterEntries(ps)[i] == AdapterEntry(ps[|ps| - 1].id, p.adapters[i - n]);
    }
  }

  lemma {:induction false} FallbackOrigin(adapters: seq<Adapter>, i: nat)
    requires i < |FallbackEntries(adapters)|
    ensures exists k, j :: 0 <= k < |adapters| && 0 <= j < |adapters[k].fallback| &&
              FallbackEntries(adapters)[i] == FallbackEntry(adapters[k].id, adapters[k].fallback[j], j)
  {
    var front, a := adapters[..|adapters| - 1], adapters[|adapters| - 1];
    var n := |FallbackEntries(front)|;
    if i < n {
      FallbackOrigin(front, i);
      var k, j :| 0 <= k < |front| && 0 <= j < |front[k].fallback| &&
        FallbackEntries(front)[i] == FallbackEntry(front[k].id, front[k].fallback[j], j);
      assert adapters[k] == front[k];
    } else {
      assert FallbackEntries(adapters)[i] == FallbackEntry(adapters[|adapters| - 1].id, a.fallback[i - n], i - n);
    }
  }

  /** Every adapter has its row, under the id of the provider that lists it. */
  lemma {:induction false} AdapterHasEntry(ps: seq<Provider>, i: nat)
    requires i < |Adapters(ps)|
    ensures |AdapterEntries(ps)| == |Adapters(ps)| && AdapterEntries(ps)[i].key == [Adapters(ps)[i].id]
    ensures Get(AdapterEntries(ps)[i].row, CapabilityId) == Text(Adapters(ps)[i].capability)
  {
    var front, p := ps[..|ps| - 1], ps[|ps| - 1];
    AdapterCounts(ps);
    AdapterCounts(front);
    if i < |Adapters(front)| {
      AdapterHasEntry(front, i);
    }
  }

  lemma {:induction false} AdapterCounts(ps: seq<Provider>)
    ensures |AdapterEntries(ps)| == |Adapters(ps)|
  {
    if ps != [] {
      AdapterCounts(ps[..|ps| - 1]);
    }
  }

  // ---- Which manifest entity a row comes from --------------------------------------------------------------

  lemma DependencyRow(cs: seq<Capability>, k: Key) returns (j: nat, dep: string, kind: string)
    requires k in Fill(DependencyEntries(cs)).at
    ensures j < |cs| && Entry(k, Fill(DependencyEntries(cs)).at[k]) == DependencyEntry(cs[j].id, dep, kind)
    ensures IsDependency(cs[j], dep, kind)
  {
    var entries := DependencyEntries(cs);
    Filled(entries);
    var i :| 0 <= i < |entries| && entries[i] == Entry(k, Fill(entries).at[k]);
    DependencyOrigin(cs, i);
    j, dep, kind :| 0 <= j < |cs| && entries[i] == DependencyEntry(cs[j].id, dep, kind) && IsDependency(cs[j], dep, kind);
  }

  lemma AdapterRow(ps: seq<Provider>, k: Key) returns (p: nat, j: nat)
    requires k in Fill(AdapterEntries(ps)).at
    ensures p < |ps| && j < |ps[p].adapters|
    ensures Entry(k, Fill(AdapterEntries(ps)).at[k]) == AdapterEntry(ps[p].id, ps[p].adapters[j])
  {
    var entries := AdapterEntries(ps);
    Filled(entries);
    var i :| 0 <= i < |entries| && entries[i] == Entry(k, Fill(entries).at[k]);
    AdapterOrigin(ps, i);
    p, j :| 0 <= p < |ps| && 0 <= j < |ps[p].adapters| && entries[i] == AdapterEntry(ps[p].id, ps[p].adapters[j]);
  }

  lemma FallbackRow(adapters: seq<Adapter>, k: Key) returns (a: nat, j: nat)
    requires k in Fill(FallbackEntries(adapters)).at
    ensures a < |adapters| && j < |adapters[a].fallback|
    ensures Entry(k, Fill(FallbackEntries(adapters)).at[k]) == FallbackEntry(adapters[a].id, adapters[a].fallback[j], j)
  {
    var entries := FallbackEntries(adapters);
    Filled(entries);
    var i :| 0 <= i < |entries| && entries[i] == Entry(k, Fill(entries).at[k]);
    FallbackOrigin(adapters, i);
    a, j :| 0 <= a < |adapters| && 0 <= j < |adapters[a].fallback| &&
      entries[i] == FallbackEntry(adapters[a].id, adapters[a].fallback[j], j);
  }

  // ---- What an error-free manifest guarantees about the desired rows --------------------------------------

  lemma {:induction false} KeyedFill(spec: TableSpec, entries: seq<Entry>)
    requires forall i :: 0 <= i < |entries| ==> RowKeyed(spec, entries[i].key, entries[i].row)
    ensures Fill(entries).Valid() && WellKeyed(spec, Fill(entries).at)
  {
    Filled(entries);
  }

  lemma CapabilitiesKeyed(cs: seq<Capability>)
    ensures Fill(CapabilityEntries(cs)).Valid() && WellKeyed(TABLE_SPECS[0], Fill(CapabilityEntries(cs)).at)
  {
    KeyedFill(TABLE_SPECS[0], CapabilityEntries(cs));
  }

  lemma ProvidersKeyed(ps: seq<Provider>)
    ensures Fill(ProviderEntries(ps)).Valid() && WellKeyed(TABLE_SPECS[2], Fill(ProviderEntries(ps)).at)
  {
    KeyedFill(TABLE_SPECS[2], ProviderEntries(ps));
  }

  lemma {:induction false} DependenciesKeyed(cs: seq<Capability>)
    ensures Fill(DependencyEntries(cs)).Valid() && WellKeyed(TABLE_SPECS[1], Fill(DependencyEntries(cs)).at)
  {
    var entries := DependencyEntries(cs);
    forall i | 0 <= i < |entries| ensures RowKeyed(TABLE_SPECS[1], entries[i].key, entries[i].row) {
      DependencyOrigin(cs, i);
    }
    KeyedFill(TABLE_SPECS[1], entries);
  }

  lemma {:induction false} AdaptersKeyed(ps: seq<Provider>)
    ensures Fill(AdapterEntries(ps)).Valid() && WellKeyed(TABLE_SPECS[3], Fill(AdapterEntries(ps)).at)
  {
    var entries := AdapterEntries(ps);
    forall i | 0 <= i < |entries| ensures RowKeyed(TABLE_SPECS[3], entries[i].key, entries[i].row) {
      AdapterOrigin(ps, i);
    }
    KeyedFill(TABLE_SPECS[3], entries);
  }

  lemma {:induction false} FallbacksKeyed(adapters: seq<Adapter>)
    ensures Fill(FallbackEntries(adapters)).Valid() && WellKeyed(TABLE_SPECS[4], Fill(FallbackEntries(adapters)).at)
  {
    var entries := FallbackEntries(adapters);
    forall i | 0 <= i < |entries| ensures RowKeyed(TABLE_SPECS[4], entries[i].key, entries[i].row) {
      FallbackOrigin(adapters, i);
    }
    KeyedFill(TABLE_SPECS[4], entries);
  }

  ghost predicate GivenRows(routing: Rows, devices: Rows) {
    && routing.Valid() && WellKeyed(TABLE_SPECS[5], routing.at)
    && devices.Valid() && WellKeyed(TABLE_SPECS[6], devices.at)
  }

  lemma {:induction false} DesiredTables(cs: seq<Capability>, doc: ProvidersDoc, routing: Rows, devices: Rows)
    ensures var d := BuildDesired(cs, doc, routing, devices);
            && RowsOf(d, TABLE_SPECS[0].name) == Fill(CapabilityEntries(cs))
            && RowsOf(d, TABLE_SPECS[1].name) == Fill(DependencyEntries(cs))
            && RowsOf(d, TABLE_SPECS[2].name) == Fill(ProviderEntries(doc.providers))
            && RowsOf(d, TABLE_SPECS[3].name) == Fill(AdapterEntries(doc.providers))
            && RowsOf(d, TABLE_SPECS[4].name) == Fill(FallbackEntries(Adapters(doc.providers)))
            && RowsOf(d, TABLE_SPECS[5].name) == routing
            && RowsOf(d, TABLE_SPECS[6].name) == devices
  {
    hide Fill, CapabilityEntries, DependencyEntries, ProviderEntries, AdapterEntries, FallbackEntries, Adapters;
  }

  lemma DesiredIsValid(cs: seq<Capability>, doc: ProvidersDoc, routing: Rows, devices: Rows)
    requires GivenRows(routing, devices)
    ensures ValidDesired(TABLE_SPECS, BuildDesired(cs, doc, routing, devices))
  {
    hide Fill, CapabilityEntries, DependencyEntries, ProviderEntries, AdapterEntries, FallbackEntries;
    hide RowsOf, WellKeyed, Adapters, BuildDesired;
    DesiredTables(cs, doc, routing, devices);
    CapabilitiesKeyed(cs);
    DependenciesKeyed(cs);
    ProvidersKeyed(doc.providers);
    AdaptersKeyed(doc.providers);
    FallbacksKeyed(Adapters(doc.providers));
  }

  lemma CapabilityPresent(cs: seq<Capability>, id: string)
    requires id in AsSet(CapabilityIds(cs))
    ensures [id] in Fill(CapabilityEntries(cs)).at
  {
    Filled(CapabilityEntries(cs));
    var i :| 0 <= i < |cs| && CapabilityIds(cs)[i] == id;
    assert CapabilityEntries(cs)[i].key == [id];
  }

  lemma {:induction false} AdapterPresent(ps: seq<Provider>, id: string)
    requires id in Ids(Adapters(ps))
    ensures [id] in Fill(AdapterEntries(ps)).at
  {
    Filled(AdapterEntries(ps));
    var i :| 0 <= i < |Adapters(ps)| && Ids(Adapters(ps))[i] == id;
    AdapterHasEntry(ps, i);
  }

  lemma {:induction false} DependenciesClosed(cs: seq<Capability>, d: Snapshot, k: Key)
    requires CapabilitiesOk(cs)
    requires RowsOf(d, Capabilities) == Fill(CapabilityEntries(cs))
    requires k in Fill(DependencyEntries(cs)).at
    ensures RowClosed(d, CapabilityDependencies, Fill(DependencyEntries(cs)).at[k])
  {
    hide CapabilitiesOk, Fill, CapabilityEntries, DependencyEntries;
    var j, dep, _ := DependencyRow(cs, k);
    KnownDependency(cs, j, dep);
    CapabilityPresent(cs, cs[j].id);
    CapabilityPresent(cs, dep);
  }

  lemma KnownDependency(cs: seq<Capability>, j: nat, dep: string)
    requires CapabilitiesOk(cs) && j < |cs| && (dep in cs[j].requires_ || dep in cs[j].optional)
    ensures dep != cs[j].id && {dep, cs[j].id} <= AsSet(CapabilityIds(cs))
  {
    assert DependenciesOk(cs[j], AsSet(CapabilityIds(cs)));
    assert CapabilityIds(cs)[j] in CapabilityIds(cs);
    if dep in cs[j].requires_ {
      var i :| 0 <= i < |cs[j].requires_| && cs[j].requires_[i] == dep;
      assert DependencyOk(cs[j], cs[j].requires_[i], AsSet(CapabilityIds(cs)));
    } else {
      var i :| 0 <= i < |cs[j].optional| && cs[j].optional[i] == dep;
      assert DependencyOk(cs[j], cs[j].optional[i], AsSet(CapabilityIds(cs)));
    }
  }

  lemma {:induction false} AdapterListed(ps: seq<Provider>, k: nat, j: nat)
    requires k < |ps| && j < |ps[k].adapters|
    ensures exists i :: 0 <= i < |Adapters(ps)| && Adapters(ps)[i] == ps[k].adapters[j]
  {
    var front, p := ps[..|ps| - 1], ps[|ps| - 1];
    if k < |front| {
      AdapterListed(front, k, j);
      var i :| 0 <= i < |Adapters(front)| && Adapters(front)[i] == front[k].adapters[j];
      assert Adapters(ps)[i] == Adapters(front)[i];
    } else {
      assert Adapters(ps)[|Adapters(front)| + j] == p.adapters[j];
    }
  }

  lemma ProviderPresent(ps: seq<Provider>, p: nat)
    requires p < |ps|
    ensures [ps[p].id] in Fill(ProviderEntries(ps)).at
  {
    Filled(ProviderEntries(ps));
    assert ProviderEntries(ps)[p].key == [ps[p].id];
  }

  lemma AdaptersClosed(cs: seq<Capability>, doc: ProvidersDoc, d: Snapshot, k: Key)
    requires CatalogueIntegrity(cs, doc)
    requires RowsOf(d, Capabilities) == Fill(CapabilityEntries(cs))
    requires RowsOf(d, Providers) == Fill(ProviderEntries(doc.providers))
    requires k in Fill(AdapterEntries(doc.providers)).at
    ensures RowClosed(d, ProviderAdapters, Fill(AdapterEntries(doc.providers)).at[k])
  {
    hide Fill, CapabilityEntries, ProviderEntries, AdapterEntries;
    var ps := doc.providers;
    var p, j := AdapterRow(ps, k);
    AdapterListed(ps, p, j);
    CapabilityPresent(cs, ps[p].adapters[j].capability);
    ProviderPresent(ps, p);
  }

  lemma FallbacksClosed(cs: seq<Capability>, doc: ProvidersDoc, d: Snapshot, k: Key)
    requires FallbackGraphOk(doc)
    requires RowsOf(d, ProviderAdapters) == Fill(AdapterEntries(doc.providers))
    requires k in Fill(FallbackEntries(Adapters(doc.providers))).at
    ensures RowClosed(d, AdapterFallbacks, Fill(FallbackEntries(Adapters(doc.providers))).at[k])
  {
    hide Fill, AdapterEntries, FallbackEntries, FallbackGraphOk;
    var adapters := Adapters(doc.providers);
    var a, j := FallbackRow(adapters, k);
    KnownFallback(doc, a, j);
    AdapterPresent(doc.providers, adapters[a].id);
    AdapterPresent(doc.providers, adapters[a].fallback[j]);
  }

  lemma KnownFallback(doc: ProvidersDoc, a: nat, j: nat)
    requires FallbackGraphOk(doc)
    requires a < |Adapters(doc.providers)| && j < |Adapters(doc.providers)[a].fallback|
    ensures var x := Adapters(doc.providers)[a];
            x.id != x.fallback[j] && x.id in Ids(Adapters(doc.providers)) && x.fallback[j] in Ids(Adapters(doc.providers))
  {
    var adapters := Adapters(doc.providers);
    assert FallbacksOk(adapters[a], CapabilityOf(adapters));
    assert FallbackOk(adapters[a], adapters[a].fallback[j], CapabilityOf(adapters));
    FallbackKeys(adapters);
    assert Ids(adapters)[a] in Ids(adapters);
  }

  lemma NothingToClose(d: Snapshot, name: TableName, row: Row)
    requires References(name) == []
    ensures RowClosed(d, name, row)
  {
  }

  /** Every reference between desired rows is resolved, and no row refers to itself. */
  lemma DesiredIsClosed(cs: seq<Capability>, doc: ProvidersDoc, routing: Rows, devices: Rows)
    requires WellFormed(cs, doc)
    ensures ClosedDesired(TABLE_SPECS, BuildDesired(cs, doc, routing, devices))
  {
    hide Fill, CapabilityEntries, DependencyEntries, ProviderEntries, AdapterEntries, FallbackEntries;
    hide RowsOf, Adapters, BuildDesired, RowClosed, UniqueIds, CapabilitiesOk, CatalogueIntegrity, FallbackGraphOk, FamiliesOk;
    var d := BuildDesired(cs, doc, routing, devices);
    DesiredTables(cs, doc, routing, devices);
    forall i, k | 0 <= i < |TABLE_SPECS| && k in RowsOf(d, TABLE_SPECS[i].name).at
      ensures RowClosed(d, TABLE_SPECS[i].name, RowsOf(d, TABLE_SPECS[i].name).at[k])
    {
      if References(TABLE_SPECS[i].name) == [] {
        NothingToClose(d, TABLE_SPECS[i].name, RowsOf(d, TABLE_SPECS[i].name).at[k]);
      } else if i == 1 {
        DependenciesClosed(cs, d, k);
      } else if i == 3 {
        AdaptersClosed(cs, doc, d, k);
      } else if i == 4 {
        FallbacksClosed(cs, doc, d, k);
      }
    }
  }

  lemma AdaptersUnique(doc: ProvidersDoc)
    requires Distinct(ProviderIds(doc.providers)) && OneAdapterPerCapability(doc)
    ensures UniqueRows(ProviderAdapters, Fill(AdapterEntries(doc.providers)).at)
  {
    hide Fill, AdapterEntries;
    var ps := doc.providers;
    var rows := Fill(AdapterEntries(ps)).at;
    forall k | k in rows ensures Get(rows[k], ProviderId).Text? && Get(rows[k], CapabilityId).Text? {
      var _, _ := AdapterRow(ps, k);
    }
    forall k, k' | k in rows && k' in rows && SameUnique(ProviderAdapters, rows[k], rows[k']) ensures k == k' {
      var p, j := AdapterRow(ps, k);
      var p', j' := AdapterRow(ps, k');
      assert Get(rows[k], UniqueColumns(ProviderAdapters)[0]) == Get(rows[k'], UniqueColumns(ProviderAdapters)[0]);
      assert Get(rows[k], UniqueColumns(ProviderAdapters)[1]) == Get(rows[k'], UniqueColumns(ProviderAdapters)[1]);
      assert ProviderIds(ps)[p] == ProviderIds(ps)[p'];
      assert Served(ps[p].adapters)[j] == Served(ps[p].adapters)[j'];
    }
  }

  lemma {:induction false} FallbacksUnique(adapters: seq<Adapter>)
    requires Distinct(Ids(adapters))
    ensures UniqueRows(AdapterFallbacks, Fill(FallbackEntries(adapters)).at)
  {
    hide Fill, FallbackEntries;
    var rows := Fill(FallbackEntries(adapters)).at;
    forall k | k in rows ensures Get(rows[k], AdapterId).Text? && Get(rows[k], Ordinal).Int? {
      var _, _ := FallbackRow(adapters, k);
    }
    forall k, k' | k in rows && k' in rows && SameUnique(AdapterFallbacks, rows[k], rows[k']) ensures k == k' {
      var a, j := FallbackRow(adapters, k);
      var a', j' := FallbackRow(adapters, k');
      assert Get(rows[k], UniqueColumns(AdapterFallbacks)[0]) == Get(rows[k'], UniqueColumns(AdapterFallbacks)[0]);
      assert Get(rows[k], UniqueColumns(AdapterFallbacks)[1]) == Get(rows[k'], UniqueColumns(AdapterFallbacks)[1]);
      assert Ids(adapters)[a] == Ids(adapters)[a'];
    }
  }

  /** No two desired rows want the same unique value. */
  lemma DesiredIsUnique(cs: seq<Capability>, doc: ProvidersDoc, routing: Rows, devices: Rows)
    requires WellFormed(cs, doc)
    ensures UniqueDesired(TABLE_SPECS, BuildDesired(cs, doc, routing, devices))
  {
    hide Fill, CapabilityEntries, DependencyEntries, ProviderEntries, AdapterEntries, FallbackEntries;
    hide RowsOf, Adapters, BuildDesired;
    DesiredTables(cs, doc, routing, devices);
    AdaptersUnique(doc);
    FallbacksUnique(Adapters(doc.providers));
  }

  /** Seeding an error-free manifest: foreign keys hold after every statement, and the first seed of
      an empty database always goes through. */
  lemma {:induction false} ManifestSeeds(cs: seq<Capability>, doc: ProvidersDoc, routing: Rows, devices: Rows, store: Storage,
                      current: Snapshot, db: Tables)
    requires WellFormed(cs, doc) && GivenRows(routing, devices)
    requires FaithfulStorage(TABLE_SPECS, store, BuildDesired(cs, doc, routing, devices))
    requires Reads(TABLE_SPECS, current, db) && KeyedDatabase(TABLE_SPECS, db) && ForeignKeysHold(db)
    ensures ValidDesired(TABLE_SPECS, BuildDesired(cs, doc, routing, devices))
    ensures forall n :: 0 <= n <= |StatementsFor(TABLE_SPECS, BuildDesired(cs, doc, routing, devices), current)| ==>
              OnlyDuplicates(Run(store, db, StatementsFor(TABLE_SPECS, BuildDesired(cs, doc, routing, devices), current)[..n]))
    ensures Run(store, db, StatementsFor(TABLE_SPECS, BuildDesired(cs, doc, routing, devices), current)).Done?
       <==> PathsClear(TABLE_SPECS, BuildDesired(cs, doc, routing, devices), current)
    ensures (forall i :: 0 <= i < |TABLE_SPECS| ==> db[TABLE_SPECS[i].name] == map[]) ==>
              Run(store, db, StatementsFor(TABLE_SPECS, BuildDesired(cs, doc, routing, devices), current)).Done?
  {
    var d := BuildDesired(cs, doc, routing, devices);
    hide Fill, CapabilityEntries, DependencyEntries, ProviderEntries, AdapterEntries, FallbackEntries, Adapters, BuildDesired;
    SchemaIsGood();
    DesiredIsValid(cs, doc, routing, devices);
    DesiredIsClosed(cs, doc, routing, devices);
    DesiredIsUnique(cs, doc, routing, devices);
    assert SeedSetting(TABLE_SPECS, store, d, current, db);
    forall n | 0 <= n <= |StatementsFor(TABLE_SPECS, d, current)|
      ensures OnlyDuplicates(Run(store, db, StatementsFor(TABLE_SPECS, d, current)[..n]))
    {
      ForeignKeysAlwaysHold(TABLE_SPECS, store, d, current, db, n);
    }
    SeedSucceedsIff(TABLE_SPECS, store, d, current, db);
    if forall i :: 0 <= i < |TABLE_SPECS| ==> db[TABLE_SPECS[i].name] == map[] {
      FirstSeedSucceeds(TABLE_SPECS, store, d, current, db);
    }
  }
}
