/** What an error-free manifest guarantees to whoever follows its references. */
module ManifestChains {
  import opened Common
  import opened CycleFinding
  import opened Manifest

  lemma {:induction false} DistinctFits(p: seq<string>, s: set<string>)
    requires Distinct(p) && forall k :: 0 <= k < |p| ==> p[k] in s
    ensures |p| <= |s|
    decreases |p|
  {
    if p != [] {
      var front := p[..|p| - 1];
      DistinctFits(front, s - {p[|p| - 1]});
    }
  }

  /** In an acyclic graph a walk visits no node twice, so it ends within the number of nodes. */
  lemma WalkIsBounded(g: Graph, p: seq<string>)
    requires Acyclic(g) && Walk(g, p) && p != [] && p[0] in g
    ensures Distinct(p) && (forall k :: 0 <= k < |p| ==> p[k] in g) && |p| <= |g|
  {
    forall i, j | 0 <= i < j < |p| ensures p[i] != p[j] {
      var part := p[i..j + 1];
      forall k | 0 <= k < |part| - 1 ensures Edge(g, part[k], part[k + 1]) {
        var q := i + k;
        assert Edge(g, p[q], p[q + 1]);
      }
      assert !IsCycle(g, part);
    }
    forall k | 0 <= k < |p| ensures p[k] in g {
      if k > 0 {
        var q := k - 1;
        assert Edge(g, p[q], p[q + 1]);
      }
    }
    DistinctFits(p, g.Keys);
  }

  // ---- Fallback chains -------------------------------------------------------------------------

  ghost predicate FallsBack(adapters: seq<Adapter>, a: string, b: string) {
    exists i :: 0 <= i < |adapters| && adapters[i].id == a && b in adapters[i].fallback
  }

  lemma {:induction false} AdapterDictionaries(adapters: seq<Adapter>)
    requires Distinct(Ids(adapters))
    ensures |FallbackEdges(adapters)| <= |adapters|
    ensures forall i :: 0 <= i < |adapters| ==>
              && adapters[i].id in FallbackEdges(adapters) && FallbackEdges(adapters)[adapters[i].id] == adapters[i].fallback
              && adapters[i].id in CapabilityOf(adapters) && CapabilityOf(adapters)[adapters[i].id] == adapters[i].capability
  {
    if adapters != [] {
      var front, last := adapters[..|adapters| - 1], adapters[|adapters| - 1];
      assert Ids(adapters) == Ids(front) + [last.id];
      assert forall i :: 0 <= i < |front| ==> Ids(adapters)[i] == front[i].id && Ids(adapters)[i] != Ids(adapters)[|front|];
      AdapterDictionaries(front);
      assert forall i :: 0 <= i < |front| ==> adapters[i] == front[i];
    }
  }

  predicate SameCapability(capabilityOf: map<string, string>, a: string, b: string) {
    a in capabilityOf && b in capabilityOf && capabilityOf[a] == capabilityOf[b]
  }

  lemma FallbackIsEdge(doc: ProvidersDoc, a: string, b: string)
    requires FallbackGraphOk(doc) && Distinct(Ids(Adapters(doc.providers))) && FallsBack(Adapters(doc.providers), a, b)
    ensures var adapters := Adapters(doc.providers);
            && Edge(FallbackEdges(adapters), a, b)
            && SameCapability(CapabilityOf(adapters), a, b)
  {
    var adapters := Adapters(doc.providers);
    AdapterDictionaries(adapters);
    FallbackKeys(adapters);
    hide Adapters, FallbackEdges, CapabilityOf;
    var i :| 0 <= i < |adapters| && adapters[i].id == a && b in adapters[i].fallback;
    assert FallbacksOk(adapters[i], CapabilityOf(adapters));
    var j :| 0 <= j < |adapters[i].fallback| && adapters[i].fallback[j] == b;
    assert FallbackOk(adapters[i], adapters[i].fallback[j], CapabilityOf(adapters));
  }

  /** From any adapter of an error-free manifest, every way of following fallbacks ends within the
      number of adapters, stays among the adapters and keeps the capability. */
  lemma FallbackChainsEnd(cs: seq<Capability>, doc: ProvidersDoc, p: seq<string>)
    requires WellFormed(cs, doc)
    requires p != [] && p[0] in Ids(Adapters(doc.providers))
    requires forall k :: 0 <= k < |p| - 1 ==> FallsBack(Adapters(doc.providers), p[k], p[k + 1])
    ensures |p| <= |Adapters(doc.providers)| && Distinct(p)
    ensures forall k :: 0 <= k < |p| ==>
              exists i :: 0 <= i < |Adapters(doc.providers)| && Adapters(doc.providers)[i].id == p[k]
    ensures forall k :: 0 <= k < |p| ==> p[k] in CapabilityOf(Adapters(doc.providers))
    ensures forall k :: 0 <= k < |p| ==>
              CapabilityOf(Adapters(doc.providers))[p[k]] == CapabilityOf(Adapters(doc.providers))[p[0]]
  {
    var adapters := Adapters(doc.providers);
    var g, capabilityOf := FallbackEdges(adapters), CapabilityOf(adapters);
    AdapterDictionaries(adapters);
    FallbackKeys(adapters);
    hide Adapters, FallbackEdges, CapabilityOf, FallsBack, FallbacksOk;
    forall k | 0 <= k < |p| - 1
      ensures Edge(g, p[k], p[k + 1]) && SameCapability(capabilityOf, p[k], p[k + 1])
    {
      FallbackIsEdge(doc, p[k], p[k + 1]);
    }
    WalkIsBounded(g, p);
    forall k | 0 <= k < |p| ensures capabilityOf[p[k]] == capabilityOf[p[0]] {
      SameAlong(capabilityOf, p, k);
    }
    forall k | 0 <= k < |p| ensures exists i :: 0 <= i < |adapters| && adapters[i].id == p[k] {
      assert p[k] in Ids(adapters);
      var i :| 0 <= i < |adapters| && Ids(adapters)[i] == p[k];
      assert adapters[i].id == p[k];
    }
  }

  lemma {:induction false} SameAlong(m: map<string, string>, p: seq<string>, k: nat)
    requires k < |p| && forall i :: 0 <= i < |p| ==> p[i] in m
    requires forall i :: 0 <= i < |p| - 1 ==> SameCapability(m, p[i], p[i + 1])
    ensures m[p[k]] == m[p[0]]
  {
    if k > 0 {
      SameAlong(m, p, k - 1);
      assert SameCapability(m, p[k - 1], p[k - 1 + 1]);
    }
  }

  // ---- Capability requirements -------------------------------------------------------------------

  ghost predicate Requires(cs: seq<Capability>, a: string, b: string) {
    exists i :: 0 <= i < |cs| && cs[i].id == a && b in cs[i].requires_
  }

  lemma {:induction false} KnownKeeps(names: seq<string>, known: set<string>)
    ensures forall x :: x in Known(names, known) <==> x in names && x in known
  {
    if names != [] {
      KnownKeeps(names[..|names| - 1], known);
      assert names == names[..|names| - 1] + [names[|names| - 1]];
    }
  }

  lemma {:induction false} RequiresDictionary(cs: seq<Capability>, known: set<string>)
    requires Distinct(CapabilityIds(cs))
    ensures |RequiresEdges(cs, known)| <= |cs|
    ensures forall i :: 0 <= i < |cs| ==>
              && cs[i].id in RequiresEdges(cs, known)
              && RequiresEdges(cs, known)[cs[i].id] == Known(cs[i].requires_, known)
  {
    if cs != [] {
      var front, last := cs[..|cs| - 1], cs[|cs| - 1];
      assert CapabilityIds(cs) == CapabilityIds(front) + [last.id];
      assert forall i :: 0 <= i < |front| ==>
               CapabilityIds(cs)[i] == front[i].id && CapabilityIds(cs)[i] != CapabilityIds(cs)[|front|];
      RequiresDictionary(front, known);
      assert forall i :: 0 <= i < |front| ==> cs[i] == front[i];
    }
  }

  lemma RequirementChainsEnd(cs: seq<Capability>, doc: ProvidersDoc, p: seq<string>)
    requires WellFormed(cs, doc)
    requires p != [] && p[0] in CapabilityIds(cs)
    requires forall k :: 0 <= k < |p| - 1 ==> Requires(cs, p[k], p[k + 1])
    ensures |p| <= |cs| && Distinct(p) && forall k :: 0 <= k < |p| ==> p[k] in CapabilityIds(cs)
  {
    var known := AsSet(CapabilityIds(cs));
    var g := RequiresEdges(cs, known);
    RequiresDictionary(cs, known);
    RequiresKeys(cs, known);
    forall k | 0 <= k < |p| - 1 ensures Edge(g, p[k], p[k + 1]) {
      assert Requires(cs, p[k], p[k + 1]);
      var i :| 0 <= i < |cs| && cs[i].id == p[k] && p[k + 1] in cs[i].requires_;
      assert DependenciesOk(cs[i], known);
      KnownKeeps(cs[i].requires_, known);
    }
    WalkIsBounded(g, p);
  }

  // ---- Family ancestry ---------------------------------------------------------------------------

  ghost predicate IsParent(fs: seq<Family>, a: string, b: string) {
    exists i :: 0 <= i < |fs| && fs[i].id == a && fs[i].parent == Some(b)
  }

  ghost predicate Ancestry(fs: seq<Family>, p: seq<string>) {
    p != [] && forall k :: 0 <= k < |p| - 1 ==> IsParent(fs, p[k], p[k + 1])
  }

  ghost predicate AncestryEnds(fs: seq<Family>) {
    forall p :: Ancestry(fs, p) ==> |p| <= |fs| + 1
  }

  lemma {:induction false} ParentDictionary(fs: seq<Family>)
    requires Distinct(FamilyIds(fs))
    ensures |ParentEdges(fs)| <= |fs|
    ensures forall i :: 0 <= i < |fs| ==> fs[i].id in ParentEdges(fs) && ParentEdges(fs)[fs[i].id] == Parents(fs[i])
  {
    if fs != [] {
      var front, last := fs[..|fs| - 1], fs[|fs| - 1];
      assert FamilyIds(fs) == FamilyIds(front) + [last.id];
      assert forall i :: 0 <= i < |front| ==> FamilyIds(fs)[i] == front[i].id && FamilyIds(fs)[i] != FamilyIds(fs)[|front|];
      ParentDictionary(front);
      assert forall i :: 0 <= i < |front| ==> fs[i] == front[i];
    }
  }

  lemma FaithfulFamiliesEnd(doc: ProvidersDoc)
    requires FamiliesOk(doc)
    requires Distinct(FamilyIds(doc.families)) && "" !in FamilyIds(doc.families)
    ensures AncestryEnds(doc.families)
  {
    var fs := doc.families;
    var g := ParentEdges(fs);
    ParentDictionary(fs);
    ParentKeys(fs);
    forall p | Ancestry(fs, p) ensures |p| <= |fs| + 1 {
      forall k | 0 <= k < |p| - 1 ensures Edge(g, p[k], p[k + 1]) {
        assert IsParent(fs, p[k], p[k + 1]);
        var i :| 0 <= i < |fs| && fs[i].id == p[k] && fs[i].parent == Some(p[k + 1]);
        assert FamilyRefsOk(fs[i], AsSet(ProviderIds(doc.providers)), AsSet(FamilyIds(fs)));
      }
      if |p| > 1 {
        assert Edge(g, p[0], p[0 + 1]);
        WalkIsBounded(g, p);
      }
    }
  }

  /** One family is its own parent and no other has one. */
  function SelfParented(ids: seq<string>, at: nat): seq<Family>
    requires at < |ids|
  {
    seq(|ids|, i requires 0 <= i < |ids| => Family(ids[i], if i == at then Some(ids[at]) else None, []))
  }

  lemma {:induction false} SelfParentedIsHidden(ids: seq<string>, at: nat, k: nat)
    requires at < |ids| && k <= |ids|
    requires ids[at] == "" || exists j :: at < j < k && ids[j] == ids[at]
    ensures forall n :: n in ParentEdges(SelfParented(ids, at)[..k]) ==> ParentEdges(SelfParented(ids, at)[..k])[n] == []
  {
    var fs := SelfParented(ids, at);
    if k > 0 {
      assert fs[..k][..k - 1] == fs[..k - 1];
      if ids[at] == "" || exists j :: at < j < k - 1 && ids[j] == ids[at] {
        SelfParentedIsHidden(ids, at, k - 1);
      } else {
        OnlySelf(ids, at, k - 1);
      }
    }
  }

  lemma {:induction false} OnlySelf(ids: seq<string>, at: nat, k: nat)
    requires at < |ids| && k <= |ids|
    ensures forall n :: n in ParentEdges(SelfParented(ids, at)[..k]) && n != ids[at] ==>
              ParentEdges(SelfParented(ids, at)[..k])[n] == []
  {
    if k > 0 {
      var fs := SelfParented(ids, at);
      assert fs[..k][..k - 1] == fs[..k - 1];
      OnlySelf(ids, at, k - 1);
    }
  }

  lemma NoEdgesNoCycle(g: Graph)
    requires forall n :: n in g ==> g[n] == []
    ensures Acyclic(g)
  {
    forall p ensures !IsCycle(g, p) {
      if 2 <= |p| {
        assert !Edge(g, p[0], p[0 + 1]);
      }
    }
  }

  lemma HiddenCycle(ids: seq<string>, at: nat)
    requires at < |ids| && (ids[at] == "" || exists j :: at < j < |ids| && ids[j] == ids[at])
    ensures FamilyIds(SelfParented(ids, at)) == ids
    ensures FamiliesOk(ProvidersDoc([], SelfParented(ids, at)))
    ensures !AncestryEnds(SelfParented(ids, at))
  {
    var fs := SelfParented(ids, at);
    assert FamilyIds(fs) == ids;
    assert fs[..|ids|] == fs;
    SelfParentedIsHidden(ids, at, |ids|);
    NoEdgesNoCycle(ParentEdges(fs));
    var long := seq(|fs| + 2, i => ids[at]);
    assert fs[at].id == ids[at] && fs[at].parent == Some(ids[at]);
    assert Ancestry(fs, long);
  }

  /** The family rule keeps ancestry finite for a list of family ids exactly when the ids are
      distinct and none is empty: duplicate family ids are checked by no rule and hide each
      other's parents, and an empty parent name is taken for no parent. */
  lemma FamilyRuleIsEnoughIff(ids: seq<string>)
    ensures (forall doc: ProvidersDoc :: FamilyIds(doc.families) == ids && FamiliesOk(doc) ==> AncestryEnds(doc.families))
      <==> Distinct(ids) && "" !in ids
  {
    if Distinct(ids) && "" !in ids {
      forall doc: ProvidersDoc | FamilyIds(doc.families) == ids && FamiliesOk(doc)
        ensures AncestryEnds(doc.families)
      {
        FaithfulFamiliesEnd(doc);
      }
    } else {
      var at :| 0 <= at < |ids| && (ids[at] == "" || exists j :: at < j < |ids| && ids[j] == ids[at]);
      HiddenCycle(ids, at);
      assert !AncestryEnds(ProvidersDoc([], SelfParented(ids, at)).families);
    }
  }
}
