/** The manifests and the rules of `validate_providers.py` that read across entities. Columns no
    rule and no constraint looks at travel in `attributes`. */
module Manifest {
  import opened Common
  import opened Values
  import opened CycleFinding

  datatype Capability = Capability(id: string, requires_: seq<string>, optional: seq<string>, attributes: Row)

  datatype Adapter = Adapter(id: string, capability: string, fallback: seq<string>, attributes: Row)

  datatype Provider = Provider(id: string, adapters: seq<Adapter>, attributes: Row)

  datatype Variant = Variant(id: string, provider: string)

  datatype Family = Family(id: string, parent: Option<string>, variants: seq<Variant>)

  datatype ProvidersDoc = ProvidersDoc(providers: seq<Provider>, families: seq<Family>)

  /** What a rule reports; `Unserved` is a warning, all others are errors. */
  datatype Finding =
    | DuplicateId(kind: string, id: string)
    | RepeatedDependency(capability: string, kind: string, dependency: string)
    | SelfDependency(capability: string, kind: string)
    | UnknownDependency(capability: string, kind: string, dependency: string)
    | ContradictoryDependency(capability: string, dependency: string)
    | DependencyCycle(path: seq<string>)
    | UnknownCapability(adapter: string, capability: string)
    | Unserved(capability: string)
    | ServedTwice(provider: string, capability: string)
    | SelfFallback(adapter: string)
    | UnknownFallback(adapter: string, target: string)
    | IncompatibleFallback(adapter: string, target: string)
    | FallbackCycle(path: seq<string>)
    | UnknownProvider(variant: string, provider: string)
    | UnknownParent(family: string, parent: string)
    | FamilyCycle(path: seq<string>)

  // ---- Lists and dictionaries ----------------------------------------------------------------

  function Ids(adapters: seq<Adapter>): seq<string> { seq(|adapters|, i requires 0 <= i < |adapters| => adapters[i].id) }

  function ProviderIds(ps: seq<Provider>): seq<string> { seq(|ps|, i requires 0 <= i < |ps| => ps[i].id) }

  function CapabilityIds(cs: seq<Capability>): seq<string> { seq(|cs|, i requires 0 <= i < |cs| => cs[i].id) }

  function FamilyIds(fs: seq<Family>): seq<string> { seq(|fs|, i requires 0 <= i < |fs| => fs[i].id) }

  function Served(adapters: seq<Adapter>): seq<string> {
    seq(|adapters|, i requires 0 <= i < |adapters| => adapters[i].capability)
  }

  function Adapters(ps: seq<Provider>): seq<Adapter> {
    if ps == [] then [] else Adapters(ps[..|ps| - 1]) + ps[|ps| - 1].adapters
  }

  function VariantIds(fs: seq<Family>): seq<string> {
    if fs == [] then []
    else
      var vs := fs[|fs| - 1].variants;
      VariantIds(fs[..|fs| - 1]) + seq(|vs|, i requires 0 <= i < |vs| => vs[i].id)
  }

  /** Dictionary comprehensions keep the last value written for a key. */
  function CapabilityOf(adapters: seq<Adapter>): map<string, string> {
    if adapters == [] then map[]
    else
      var a := adapters[|adapters| - 1];
      CapabilityOf(adapters[..|adapters| - 1])[a.id := a.capability]
  }

  function FallbackEdges(adapters: seq<Adapter>): Graph {
    if adapters == [] then map[]
    else
      var a := adapters[|adapters| - 1];
      FallbackEdges(adapters[..|adapters| - 1])[a.id := a.fallback]
  }

  function Parents(f: Family): seq<string> {
    if f.parent.Some? && f.parent.value != "" then [f.parent.value] else []
  }

  function ParentEdges(fs: seq<Family>): Graph {
    if fs == [] then map[]
    else
      var f := fs[|fs| - 1];
      ParentEdges(fs[..|fs| - 1])[f.id := Parents(f)]
  }

  function Known(names: seq<string>, known: set<string>): seq<string> {
    if names == [] then []
    else
      var last := names[|names| - 1];
      Known(names[..|names| - 1], known) + if last in known then [last] else []
  }

  function RequiresEdges(cs: seq<Capability>, known: set<string>): Graph {
    if cs == [] then map[]
    else
      var c := cs[|cs| - 1];
      RequiresEdges(cs[..|cs| - 1], known)[c.id := Known(c.requires_, known)]
  }

  // ---- What each rule demands ------------------------------------------------------------------

  predicate UniqueIds(cs: seq<Capability>, doc: ProvidersDoc) {
    && Distinct(ProviderIds(doc.providers))
    && Distinct(Ids(Adapters(doc.providers)))
    && Distinct(VariantIds(doc.families))
    && Distinct(CapabilityIds(cs))
  }

  predicate DependencyOk(c: Capability, d: string, known: set<string>) {
    d != c.id && d in known
  }

  predicate DependenciesOk(c: Capability, known: set<string>) {
    && Distinct(c.requires_) && Distinct(c.optional)
    && (forall i :: 0 <= i < |c.requires_| ==> DependencyOk(c, c.requires_[i], known))
    && (forall i :: 0 <= i < |c.optional| ==> DependencyOk(c, c.optional[i], known))
    && Overlap(c) == {}
  }

  function Overlap(c: Capability): set<string> {
    set d | d in c.requires_ && d in c.optional
  }

  ghost predicate CapabilitiesOk(cs: seq<Capability>) {
    && (forall i :: 0 <= i < |cs| ==> DependenciesOk(cs[i], AsSet(CapabilityIds(cs))))
    && Acyclic(RequiresEdges(cs, AsSet(CapabilityIds(cs))))
  }

  predicate CatalogueIntegrity(cs: seq<Capability>, doc: ProvidersDoc) {
    forall i :: 0 <= i < |Adapters(doc.providers)| ==> Adapters(doc.providers)[i].capability in AsSet(CapabilityIds(cs))
  }

  predicate OneAdapterPerCapability(doc: ProvidersDoc) {
    forall i :: 0 <= i < |doc.providers| ==> Distinct(Served(doc.providers[i].adapters))
  }

  predicate FallbackOk(a: Adapter, target: string, capabilityOf: map<string, string>) {
    target != a.id && target in capabilityOf && capabilityOf[target] == a.capability
  }

  predicate FallbacksOk(a: Adapter, capabilityOf: map<string, string>) {
    forall k :: 0 <= k < |a.fallback| ==> FallbackOk(a, a.fallback[k], capabilityOf)
  }

  ghost predicate FallbackGraphOk(doc: ProvidersDoc) {
    var adapters := Adapters(doc.providers);
    && (forall i :: 0 <= i < |adapters| ==> FallbacksOk(adapters[i], CapabilityOf(adapters)))
    && Acyclic(FallbackEdges(adapters))
  }

  predicate FamilyRefsOk(f: Family, providers: set<string>, families: set<string>) {
    && (forall k :: 0 <= k < |f.variants| ==> f.variants[k].provider in providers)
    && (f.parent.Some? ==> f.parent.value in families)
  }

  ghost predicate FamiliesOk(doc: ProvidersDoc) {
    && (forall i :: 0 <= i < |doc.families| ==>
          FamilyRefsOk(doc.families[i], AsSet(ProviderIds(doc.providers)), AsSet(FamilyIds(doc.families))))
    && Acyclic(ParentEdges(doc.families))
  }

  ghost predicate WellFormed(cs: seq<Capability>, doc: ProvidersDoc) {
    && UniqueIds(cs, doc)
    && CapabilitiesOk(cs)
    && CatalogueIntegrity(cs, doc)
    && OneAdapterPerCapability(doc)
    && FallbackGraphOk(doc)
    && FamiliesOk(doc)
  }

  // ---- What a report may say -------------------------------------------------------------------

  ghost predicate Twice(xs: seq<string>, x: string) {
    exists i, j :: 0 <= i < j < |xs| && xs[i] == x == xs[j]
  }

  /** What one of the two dependency lists of a capability gives cause to report. */
  ghost predicate ListFinding(c: string, kind: string, deps: seq<string>, known: set<string>, f: Finding) {
    match f
    case RepeatedDependency(c', kind', d) => c' == c && kind' == kind && Twice(deps, d)
    case SelfDependency(c', kind') => c' == c && kind' == kind && c in deps
    case UnknownDependency(c', kind', d) => c' == c && kind' == kind && d in deps && d != c && d !in known
    case _ => false
  }

  ghost predicate CapabilityFinding(c: Capability, known: set<string>, f: Finding) {
    || ListFinding(c.id, "requires", c.requires_, known, f) || ListFinding(c.id, "optional", c.optional, known, f)
    || (f.ContradictoryDependency? && f.capability == c.id && f.dependency in c.requires_ && f.dependency in c.optional)
  }

  ghost predicate AdapterFinding(a: Adapter, capabilityOf: map<string, string>, f: Finding) {
    match f
    case SelfFallback(id) => id == a.id && a.id in a.fallback
    case UnknownFallback(id, target) => id == a.id && target in a.fallback && target != a.id && target !in capabilityOf
    case IncompatibleFallback(id, target) =>
      id == a.id && target in a.fallback && target != a.id && target in capabilityOf && capabilityOf[target] != a.capability
    case _ => false
  }

  ghost predicate FamilyFinding(family: Family, providers: set<string>, families: set<string>, f: Finding) {
    match f
    case UnknownProvider(v, p) => Variant(v, p) in family.variants && p !in providers
    case UnknownParent(id, parent) => id == family.id && family.parent == Some(parent) && parent !in families
    case _ => false
  }

  ghost predicate ServedTwiceBy(ps: seq<Provider>, f: Finding) {
    f.ServedTwice? && exists i :: 0 <= i < |ps| && ps[i].id == f.provider && Twice(Served(ps[i].adapters), f.capability)
  }

  ghost predicate FoundInCapabilities(cs: seq<Capability>, known: set<string>, f: Finding) {
    exists i :: 0 <= i < |cs| && CapabilityFinding(cs[i], known, f)
  }

  ghost predicate FoundInAdapters(adapters: seq<Adapter>, capabilityOf: map<string, string>, f: Finding) {
    exists i :: 0 <= i < |adapters| && AdapterFinding(adapters[i], capabilityOf, f)
  }

  ghost predicate FoundInFamilies(fs: seq<Family>, providers: set<string>, families: set<string>, f: Finding) {
    exists i :: 0 <= i < |fs| && FamilyFinding(fs[i], providers, families, f)
  }

  /** The manifest gives cause for a finding. */
  ghost predicate Justified(cs: seq<Capability>, doc: ProvidersDoc, f: Finding) {
    match f
    case DuplicateId(kind, id) =>
      || (kind == "provider" && Twice(ProviderIds(doc.providers), id))
      || (kind == "adapter" && Twice(Ids(Adapters(doc.providers)), id))
      || (kind == "variant" && Twice(VariantIds(doc.families), id))
      || (kind == "capability" && Twice(CapabilityIds(cs), id))
    case RepeatedDependency(_, _, _) | SelfDependency(_, _) | UnknownDependency(_, _, _) | ContradictoryDependency(_, _) =>
      FoundInCapabilities(cs, AsSet(CapabilityIds(cs)), f)
    case DependencyCycle(path) => IsCycle(RequiresEdges(cs, AsSet(CapabilityIds(cs))), path)
    case UnknownCapability(id, capability) =>
      exists i :: 0 <= i < |Adapters(doc.providers)| && Adapters(doc.providers)[i].id == id
                  && Adapters(doc.providers)[i].capability == capability && capability !in CapabilityIds(cs)
    case Unserved(capability) =>
      capability in CapabilityIds(cs)
      && forall i :: 0 <= i < |Adapters(doc.providers)| ==> Adapters(doc.providers)[i].capability != capability
    case ServedTwice(provider, capability) =>
      ServedTwiceBy(doc.providers, ServedTwice(provider, capability))
    case SelfFallback(_) | UnknownFallback(_, _) | IncompatibleFallback(_, _) =>
      FoundInAdapters(Adapters(doc.providers), CapabilityOf(Adapters(doc.providers)), f)
    case FallbackCycle(path) => IsCycle(FallbackEdges(Adapters(doc.providers)), path)
    case UnknownProvider(_, _) | UnknownParent(_, _) =>
      FoundInFamilies(doc.families, AsSet(ProviderIds(doc.providers)), AsSet(FamilyIds(doc.families)), f)
    case FamilyCycle(path) => IsCycle(ParentEdges(doc.families), path)
  }

  predicate IsCycleFinding(f: Finding) {
    f.DependencyCycle? || f.FallbackCycle? || f.FamilyCycle?
  }

  // ---- The rules, as they run --------------------------------------------------------------------

  class Report {
    var errors: seq<Finding>
    var warnings: seq<Finding>

    constructor ()
      ensures errors == [] && warnings == []
    {
      errors, warnings := [], [];
    }

    method Error(f: Finding)
      modifies `errors
      ensures errors == old(errors) + [f]
    {
      errors := errors + [f];
    }

    method Warn(f: Finding)
      modifies `warnings
      ensures warnings == old(warnings) + [f]
    {
      warnings := warnings + [f];
    }
  }

  method Dups(values: seq<string>) returns (dups: set<string>)
    ensures forall v :: v in dups <==> Twice(values, v)
    ensures dups == {} <==> Distinct(values)
  {
    var seen := {};
    dups := {};
    for k := 0 to |values|
      invariant seen == set v | v in values[..k]
      invariant forall v :: v in dups <==> exists i, j :: 0 <= i < j < k && values[i] == v == values[j]
    {
      var v := values[k];
      if v in seen {
        dups := dups + {v};
      } else {
        seen := seen + {v};
      }
    }
    assert dups == {} ==> Distinct(values) by {
      if dups == {} {
        forall i, j | 0 <= i < j < |values| ensures values[i] != values[j] {
          assert values[i] !in dups;
        }
      }
    }
  }

  /** Reports every repeated value once; `about` words the finding. */
  method ReportDups(about: string -> Finding, ids: seq<string>, r: Report)
    modifies r`errors
    ensures old(r.errors) <= r.errors
    ensures r.errors == old(r.errors) <==> Distinct(ids)
    ensures forall f :: f in r.errors <==> f in old(r.errors) || exists id :: Twice(ids, id) && f == about(id)
  {
    var dups := Dups(ids);
    ghost var all := dups;
    while dups != {}
      invariant old(r.errors) <= r.errors
      invariant dups <= all
      invariant r.errors == old(r.errors) ==> (dups == {} <==> Distinct(ids))
      invariant r.errors != old(r.errors) ==> !Distinct(ids)
      invariant forall f :: f in r.errors <==> f in old(r.errors) || exists id :: id in all - dups && f == about(id)
      decreases dups
    {
      var id :| id in dups;
      ghost var before, done := r.errors, all - dups;
      r.Error(about(id));
      dups := dups - {id};
      assert all - dups == done + {id};
    }
    assert all - dups == all;
  }

  method RuleUniqueness(cs: seq<Capability>, doc: ProvidersDoc, r: Report)
    modifies r`errors
    ensures old(r.errors) <= r.errors
    ensures r.errors == old(r.errors) <==> UniqueIds(cs, doc)
    ensures forall f :: f in r.errors <==> f in old(r.errors) || (f.DuplicateId? && Justified(cs, doc, f))
  {
    ReportDups(id => DuplicateId("provider", id), ProviderIds(doc.providers), r);
    ReportDups(id => DuplicateId("adapter", id), Ids(Adapters(doc.providers)), r);
    ReportDups(id => DuplicateId("variant", id), VariantIds(doc.families), r);
    ReportDups(id => DuplicateId("capability", id), CapabilityIds(cs), r);
  }

  method RuleCapabilityDependencies(cs: seq<Capability>, r: Report)
    modifies r`errors
    ensures old(r.errors) <= r.errors
    ensures r.errors == old(r.errors) <==> CapabilitiesOk(cs)
    ensures forall f :: f in r.errors && f !in old(r.errors) && f.DependencyCycle? ==>
              IsCycle(RequiresEdges(cs, AsSet(CapabilityIds(cs))), f.path)
    ensures Acyclic(RequiresEdges(cs, AsSet(CapabilityIds(cs)))) || exists f :: f in r.errors && f.DependencyCycle?
    ensures forall f: Finding :: !f.DependencyCycle? ==>
              (f in r.errors <==> f in old(r.errors) || FoundInCapabilities(cs, AsSet(CapabilityIds(cs)), f))
  {
    var known := AsSet(CapabilityIds(cs));
    var edges: Graph := map[];
    hide CapabilityFinding, DependenciesOk;
    for k := 0 to |cs|
      invariant edges == RequiresEdges(cs[..k], known)
      invariant old(r.errors) <= r.errors
      invariant r.errors == old(r.errors) <==> forall i :: 0 <= i < k ==> DependenciesOk(cs[i], known)
      invariant forall f :: f in r.errors <==> f in old(r.errors) || exists i :: 0 <= i < k && CapabilityFinding(cs[i], known, f)
    {
      CheckDependencies(cs[k], known, r);
      edges := edges[cs[k].id := Known(cs[k].requires_, known)];
      assert cs[..k + 1][..k] == cs[..k];
    }
    assert cs[..|cs|] == cs;
    NoCycleAmongCapabilityFindings(cs, known);
    RequiresKeys(cs, known);
    var cycle := CycleFinder.FindCycle(CapabilityIds(cs), edges);
    if cycle.Some? {
      r.Error(DependencyCycle(cycle.value));
      assert DependencyCycle(cycle.value) in r.errors;
    }
  }

  lemma NoCycleAmongCapabilityFindings(cs: seq<Capability>, known: set<string>)
    ensures forall i, f :: 0 <= i < |cs| && CapabilityFinding(cs[i], known, f) ==> !f.DependencyCycle?
  {
  }

  method CheckDependencies(c: Capability, known: set<string>, r: Report)
    modifies r`errors
    ensures old(r.errors) <= r.errors
    ensures r.errors == old(r.errors) <==> DependenciesOk(c, known)
    ensures forall f :: f in r.errors <==> f in old(r.errors) || CapabilityFinding(c, known, f)
  {
    CheckListed(c, "requires", c.requires_, known, r);
    CheckListed(c, "optional", c.optional, known, r);
    hide ListFinding;
    var both := Overlap(c);
    ghost var before := r.errors;
    while both != {}
      invariant old(r.errors) <= before <= r.errors
      invariant both <= Overlap(c) && (r.errors == before <==> both == Overlap(c))
      invariant forall f :: f in r.errors <==>
                  f in before || (f.ContradictoryDependency? && f.capability == c.id && f.dependency in Overlap(c) - both)
      decreases both
    {
      var d :| d in both;
      r.Error(ContradictoryDependency(c.id, d));
      both := both - {d};
    }
  }

  /** One of the two dependency lists of a capability. */
  method CheckListed(c: Capability, listName: string, deps: seq<string>, known: set<string>, r: Report)
    modifies r`errors
    ensures old(r.errors) <= r.errors
    ensures r.errors == old(r.errors) <==>
              Distinct(deps) && forall i :: 0 <= i < |deps| ==> DependencyOk(c, deps[i], known)
    ensures forall f :: f in r.errors <==> f in old(r.errors) || ListFinding(c.id, listName, deps, known, f)
  {
    ReportDups(d => RepeatedDependency(c.id, listName, d), deps, r);
    ghost var before := r.errors;
    for k := 0 to |deps|
      invariant old(r.errors) <= before <= r.errors
      invariant r.errors == before <==> forall i :: 0 <= i < k ==> DependencyOk(c, deps[i], known)
      invariant forall f :: f in r.errors <==>
                  || f in before
                  || (f == SelfDependency(c.id, listName) && c.id in deps[..k])
                  || (f.UnknownDependency? && f.capability == c.id && f.kind == listName && f.dependency in deps[..k]
                      && f.dependency != c.id && f.dependency !in known)
    {
      assert deps[..k + 1] == deps[..k] + [deps[k]];
      if deps[k] == c.id {
        r.Error(SelfDependency(c.id, listName));
      } else if deps[k] !in known {
        r.Error(UnknownDependency(c.id, listName, deps[k]));
      }
    }
    assert deps[..|deps|] == deps;
  }

  method RuleCatalogueIntegrity(cs: seq<Capability>, doc: ProvidersDoc, r: Report)
    modifies r
    ensures old(r.errors) <= r.errors
    ensures r.errors == old(r.errors) <==> CatalogueIntegrity(cs, doc)
    ensures forall f :: f in r.errors <==> f in old(r.errors) || (f.UnknownCapability? && Justified(cs, doc, f))
    ensures forall f :: f in r.warnings <==> f in old(r.warnings) || (f.Unserved? && Justified(cs, doc, f))
  {
    var known := AsSet(CapabilityIds(cs));
    var adapters := Adapters(doc.providers);
    var served := {};
    for k := 0 to |adapters|
      invariant old(r.errors) <= r.errors && r.warnings == old(r.warnings)
      invariant r.errors == old(r.errors) <==> forall i :: 0 <= i < k ==> adapters[i].capability in known
      invariant forall c :: c in served <==> exists i :: 0 <= i < k && adapters[i].capability == c
      invariant forall f :: f in r.errors <==>
                  || f in old(r.errors)
                  || (f.UnknownCapability? && f.capability !in known
                      && exists i :: 0 <= i < k && adapters[i].id == f.adapter && adapters[i].capability == f.capability)
    {
      served := served + {adapters[k].capability};
      if adapters[k].capability !in known {
        r.Error(UnknownCapability(adapters[k].id, adapters[k].capability));
      }
    }
    ghost var errors := r.errors;
    var unserved := known - served;
    while unserved != {}
      invariant unserved <= known - served && r.errors == errors
      invariant forall f :: f in r.warnings <==>
                  f in old(r.warnings) || (f.Unserved? && f.capability in known - served - unserved)
      decreases unserved
    {
      var capability :| capability in unserved;
      r.Warn(Unserved(capability));
      unserved := unserved - {capability};
    }
  }

  method RuleUniqueProviderCapability(doc: ProvidersDoc, r: Report)
    modifies r`errors
    ensures old(r.errors) <= r.errors
    ensures r.errors == old(r.errors) <==> OneAdapterPerCapability(doc)
    ensures forall f :: f in r.errors <==> f in old(r.errors) || ServedTwiceBy(doc.providers, f)
  {
    for k := 0 to |doc.providers|
      invariant old(r.errors) <= r.errors
      invariant r.errors == old(r.errors) <==> forall i :: 0 <= i < k ==> Distinct(Served(doc.providers[i].adapters))
      invariant forall f :: f in r.errors <==> f in old(r.errors) || ServedTwiceBy(doc.providers[..k], f)
    {
      ghost var before := r.errors;
      ReportDups(capability => ServedTwice(doc.providers[k].id, capability), Served(doc.providers[k].adapters), r);
      assert doc.providers[..k + 1] == doc.providers[..k] + [doc.providers[k]];
      assert forall i :: 0 <= i < k ==> doc.providers[..k][i] == doc.providers[..k + 1][i];
    }
    assert doc.providers[..|doc.providers|] == doc.providers;
  }

  method RuleFallbackGraph(doc: ProvidersDoc, r: Report)
    modifies r`errors
    ensures old(r.errors) <= r.errors
    ensures r.errors == old(r.errors) <==> FallbackGraphOk(doc)
    ensures forall f :: f in r.errors && f !in old(r.errors) && f.FallbackCycle? ==>
              IsCycle(FallbackEdges(Adapters(doc.providers)), f.path)
    ensures Acyclic(FallbackEdges(Adapters(doc.providers))) || exists f :: f in r.errors && f.FallbackCycle?
    ensures forall f: Finding :: !f.FallbackCycle? ==>
              (f in r.errors <==>
                 f in old(r.errors) || FoundInAdapters(Adapters(doc.providers), CapabilityOf(Adapters(doc.providers)), f))
  {
    var adapters := Adapters(doc.providers);
    var capabilityOf := CapabilityOf(adapters);
    var edges: Graph := map[];
    hide AdapterFinding, FallbacksOk, Adapters, CapabilityOf;
    for k := 0 to |adapters|
      invariant edges == FallbackEdges(adapters[..k])
      invariant old(r.errors) <= r.errors
      invariant r.errors == old(r.errors) <==> forall i :: 0 <= i < k ==> FallbacksOk(adapters[i], capabilityOf)
      invariant forall f :: f in r.errors <==>
                  f in old(r.errors) || exists i :: 0 <= i < k && AdapterFinding(adapters[i], capabilityOf, f)
    {
      edges := edges[adapters[k].id := adapters[k].fallback];
      CheckFallbacks(adapters[k], capabilityOf, r);
      assert adapters[..k + 1][..k] == adapters[..k];
    }
    assert adapters[..|adapters|] == adapters;
    NoCycleAmongAdapterFindings(adapters, capabilityOf);
    FallbackKeys(adapters);
    var cycle := CycleFinder.FindCycle(Ids(adapters), edges);
    if cycle.Some? {
      r.Error(FallbackCycle(cycle.value));
      assert FallbackCycle(cycle.value) in r.errors;
    }
  }

  lemma NoCycleAmongAdapterFindings(adapters: seq<Adapter>, capabilityOf: map<string, string>)
    ensures forall i, f :: 0 <= i < |adapters| && AdapterFinding(adapters[i], capabilityOf, f) ==> !f.FallbackCycle?
  {
  }

  /** The inner loop over the fallbacks of one adapter. */
  method CheckFallbacks(a: Adapter, capabilityOf: map<string, string>, r: Report)
    modifies r`errors
    ensures old(r.errors) <= r.errors
    ensures r.errors == old(r.errors) <==> FallbacksOk(a, capabilityOf)
    ensures forall f :: f in r.errors <==> f in old(r.errors) || AdapterFinding(a, capabilityOf, f)
  {
    for j := 0 to |a.fallback|
      invariant old(r.errors) <= r.errors
      invariant r.errors == old(r.errors) <==> forall i :: 0 <= i < j ==> FallbackOk(a, a.fallback[i], capabilityOf)
      invariant forall f :: f in r.errors <==>
                  f in old(r.errors) || AdapterFinding(a.(fallback := a.fallback[..j]), capabilityOf, f)
    {
      assert a.fallback[..j + 1] == a.fallback[..j] + [a.fallback[j]];
      var target := a.fallback[j];
      if target == a.id {
        r.Error(SelfFallback(a.id));
      } else if target !in capabilityOf {
        r.Error(UnknownFallback(a.id, target));
      } else if capabilityOf[target] != a.capability {
        r.Error(IncompatibleFallback(a.id, target));
      }
    }
    assert a.fallback[..|a.fallback|] == a.fallback;
  }

  method RuleFamilies(doc: ProvidersDoc, r: Report)
    modifies r`errors
    ensures old(r.errors) <= r.errors
    ensures r.errors == old(r.errors) <==> FamiliesOk(doc)
    ensures forall f :: f in r.errors && f !in old(r.errors) && f.FamilyCycle? ==> IsCycle(ParentEdges(doc.families), f.path)
    ensures Acyclic(ParentEdges(doc.families)) || exists f :: f in r.errors && f.FamilyCycle?
    ensures forall f: Finding :: !f.FamilyCycle? ==>
              (f in r.errors <==>
                 f in old(r.errors)
                 || FoundInFamilies(doc.families, AsSet(ProviderIds(doc.providers)), AsSet(FamilyIds(doc.families)), f))
  {
    var providers := AsSet(ProviderIds(doc.providers));
    var families := AsSet(FamilyIds(doc.families));
    hide FamilyFinding, FamilyRefsOk, AsSet;
    for k := 0 to |doc.families|
      invariant old(r.errors) <= r.errors
      invariant r.errors == old(r.errors) <==>
                  forall i :: 0 <= i < k ==> FamilyRefsOk(doc.families[i], providers, families)
      invariant forall f :: f in r.errors <==>
                  f in old(r.errors) || exists i :: 0 <= i < k && FamilyFinding(doc.families[i], providers, families, f)
    {
      CheckFamily(doc.families[k], providers, families, r);
    }
    NoCycleAmongFamilyFindings(doc.families, providers, families);
    ParentKeys(doc.families);
    var cycle := CycleFinder.FindCycle(FamilyIds(doc.families), ParentEdges(doc.families));
    if cycle.Some? {
      r.Error(FamilyCycle(cycle.value));
      assert FamilyCycle(cycle.value) in r.errors;
    }
  }

  lemma NoCycleAmongFamilyFindings(fs: seq<Family>, providers: set<string>, families: set<string>)
    ensures forall i, f :: 0 <= i < |fs| && FamilyFinding(fs[i], providers, families, f) ==> !f.FamilyCycle?
  {
  }

  /** The references of one family. */
  method CheckFamily(family: Family, providers: set<string>, families: set<string>, r: Report)
    modifies r`errors
    ensures old(r.errors) <= r.errors
    ensures r.errors == old(r.errors) <==> FamilyRefsOk(family, providers, families)
    ensures forall f :: f in r.errors <==> f in old(r.errors) || FamilyFinding(family, providers, families, f)
  {
    for j := 0 to |family.variants|
      invariant old(r.errors) <= r.errors
      invariant r.errors == old(r.errors) <==> forall i :: 0 <= i < j ==> family.variants[i].provider in providers
      invariant forall f :: f in r.errors <==>
                  f in old(r.errors) || (f.UnknownProvider? && Variant(f.variant, f.provider) in family.variants[..j] && f.provider !in providers)
    {
      assert family.variants[..j + 1] == family.variants[..j] + [family.variants[j]];
      if family.variants[j].provider !in providers {
        r.Error(UnknownProvider(family.variants[j].id, family.variants[j].provider));
      }
    }
    assert family.variants[..|family.variants|] == family.variants;
    if family.parent.Some? && family.parent.value !in families {
      r.Error(UnknownParent(family.id, family.parent.value));
    }
  }

  /** What the loops over capabilities, adapters, providers and families find. */
  lemma OnlyTheirKind(cs: seq<Capability>, doc: ProvidersDoc)
    ensures forall known, f :: FoundInCapabilities(cs, known, f) ==>
              f.RepeatedDependency? || f.SelfDependency? || f.UnknownDependency? || f.ContradictoryDependency?
    ensures forall capabilityOf, f :: FoundInAdapters(Adapters(doc.providers), capabilityOf, f) ==>
              f.SelfFallback? || f.UnknownFallback? || f.IncompatibleFallback?
    ensures forall providers, families, f :: FoundInFamilies(doc.families, providers, families, f) ==>
              f.UnknownProvider? || f.UnknownParent?
    ensures forall f :: ServedTwiceBy(doc.providers, f) ==> f.ServedTwice?
  {
  }

  lemma CyclesAreCycles(cs: seq<Capability>, doc: ProvidersDoc)
    ensures forall path :: IsCycle(RequiresEdges(cs, AsSet(CapabilityIds(cs))), path) ==>
              !Acyclic(RequiresEdges(cs, AsSet(CapabilityIds(cs))))
    ensures forall path :: IsCycle(FallbackEdges(Adapters(doc.providers)), path) ==> !Acyclic(FallbackEdges(Adapters(doc.providers)))
    ensures forall path :: IsCycle(ParentEdges(doc.families), path) ==> !Acyclic(ParentEdges(doc.families))
  {
  }

  /** What the six rules find together, cycles aside. */
  ghost predicate FoundByRules(cs: seq<Capability>, doc: ProvidersDoc, f: Finding) {
    || (f.DuplicateId? && Justified(cs, doc, f))
    || FoundInCapabilities(cs, AsSet(CapabilityIds(cs)), f)
    || (f.UnknownCapability? && Justified(cs, doc, f))
    || ServedTwiceBy(doc.providers, f)
    || FoundInAdapters(Adapters(doc.providers), CapabilityOf(Adapters(doc.providers)), f)
    || FoundInFamilies(doc.families, AsSet(ProviderIds(doc.providers)), AsSet(FamilyIds(doc.families)), f)
  }

  lemma FoundIsJustified(cs: seq<Capability>, doc: ProvidersDoc)
    ensures forall f :: FoundByRules(cs, doc, f) <==> Justified(cs, doc, f) && !IsCycleFinding(f) && !f.Unserved?
  {
    OnlyTheirKind(cs, doc);
    hide FoundInCapabilities, FoundInAdapters, FoundInFamilies, ServedTwiceBy, Twice;
    hide RequiresEdges, FallbackEdges, ParentEdges, IsCycle, Adapters, CapabilityOf, AsSet;
  }

  /** The findings of all rules on a new report. */
  method RunRules(cs: seq<Capability>, doc: ProvidersDoc, r: Report)
    requires r.errors == [] && r.warnings == []
    modifies r
    ensures r.errors == [] <==> WellFormed(cs, doc)
    ensures forall f :: !IsCycleFinding(f) ==> (f in r.errors <==> FoundByRules(cs, doc, f))
    ensures forall f :: f in r.errors && f.DependencyCycle? ==> IsCycle(RequiresEdges(cs, AsSet(CapabilityIds(cs))), f.path)
    ensures forall f :: f in r.errors && f.FallbackCycle? ==> IsCycle(FallbackEdges(Adapters(doc.providers)), f.path)
    ensures forall f :: f in r.errors && f.FamilyCycle? ==> IsCycle(ParentEdges(doc.families), f.path)
    ensures Acyclic(RequiresEdges(cs, AsSet(CapabilityIds(cs)))) || exists f :: f in r.errors && f.DependencyCycle?
    ensures Acyclic(FallbackEdges(Adapters(doc.providers))) || exists f :: f in r.errors && f.FallbackCycle?
    ensures Acyclic(ParentEdges(doc.families)) || exists f :: f in r.errors && f.FamilyCycle?
    ensures forall f :: f in r.warnings <==> f.Unserved? && Justified(cs, doc, f)
  {
    OnlyTheirKind(cs, doc);
    hide UniqueIds, CapabilitiesOk, CatalogueIntegrity, OneAdapterPerCapability, FallbackGraphOk, FamiliesOk;
    hide FoundInCapabilities, FoundInAdapters, FoundInFamilies, ServedTwiceBy, Justified;
    hide RequiresEdges, FallbackEdges, ParentEdges, IsCycle, Acyclic, Adapters, CapabilityOf, AsSet;
    RuleUniqueness(cs, doc, r);
    RuleCapabilityDependencies(cs, r);
    RuleCatalogueIntegrity(cs, doc, r);
    RuleUniqueProviderCapability(doc, r);
    RuleFallbackGraph(doc, r);
    RuleFamilies(doc, r);
  }

  /** Errors: sound and complete, but that of several cycles of one graph one is reported. The report is empty
      exactly when the manifest is well formed; the warnings are the capabilities no adapter serves. */
  method Validate(cs: seq<Capability>, doc: ProvidersDoc) returns (r: Report)
    ensures fresh(r)
    ensures r.errors == [] <==> WellFormed(cs, doc)
    ensures forall f :: f in r.errors ==> Justified(cs, doc, f)
    ensures forall f :: Justified(cs, doc, f) && !IsCycleFinding(f) && !f.Unserved? ==> f in r.errors
    ensures (exists f :: f in r.errors && f.DependencyCycle?) <==> !Acyclic(RequiresEdges(cs, AsSet(CapabilityIds(cs))))
    ensures (exists f :: f in r.errors && f.FallbackCycle?) <==> !Acyclic(FallbackEdges(Adapters(doc.providers)))
    ensures (exists f :: f in r.errors && f.FamilyCycle?) <==> !Acyclic(ParentEdges(doc.families))
    ensures forall f :: f in r.warnings <==> f.Unserved? && Justified(cs, doc, f)
  {
    hide WellFormed, FoundByRules, IsCycle, Adapters, AsSet;
    r := new Report();
    RunRules(cs, doc, r);
    FoundIsJustified(cs, doc);
    CyclesAreCycles(cs, doc);
    forall f | f in r.errors ensures Justified(cs, doc, f) {
      if IsCycleFinding(f) {
        match f {
          case DependencyCycle(path) =>
          case FallbackCycle(path) =>
          case FamilyCycle(path) =>
          case _ =>
        }
      }
    }
  }

  lemma {:induction false} FallbackKeys(adapters: seq<Adapter>)
    ensures forall n :: n in Ids(adapters) <==> n in FallbackEdges(adapters)
    ensures forall n :: n in Ids(adapters) <==> n in CapabilityOf(adapters)
  {
    if adapters != [] {
      var front := adapters[..|adapters| - 1];
      FallbackKeys(front);
      assert Ids(adapters) == Ids(front) + [adapters[|adapters| - 1].id];
    }
  }

  lemma {:induction false} ParentKeys(fs: seq<Family>)
    ensures forall n :: n in FamilyIds(fs) <==> n in ParentEdges(fs)
  {
    if fs != [] {
      var front := fs[..|fs| - 1];
      ParentKeys(front);
      assert FamilyIds(fs) == FamilyIds(front) + [fs[|fs| - 1].id];
    }
  }

  lemma {:induction false} RequiresKeys(cs: seq<Capability>, known: set<string>)
    ensures forall n :: n in CapabilityIds(cs) <==> n in RequiresEdges(cs, known)
  {
    if cs != [] {
      var front := cs[..|cs| - 1];
      RequiresKeys(front, known);
      assert CapabilityIds(cs) == CapabilityIds(front) + [cs[|cs| - 1].id];
    }
  }
}
