/**
 * Which entry a model id finds, by provider and position: for the exact lookup, and for the
 * global one that prefers rich entries.
 */
module ModelLookups {
  import opened Options
  import opened Text
  import opened ProviderModels

  // -------------------------------------------------------------------------- richness

  /** What each capability field is worth. */
  lemma RichnessOfOne(id: string, name: string)
    ensures Richness(Model(id, name, {XHighEffort})) == 10 && Richness(Model(id, name, {Reasoning})) == 5
    ensures Richness(Model(id, name, {ContextLength})) == 3
    ensures Richness(Model(id, name, {MaxOutputTokens})) == Richness(Model(id, name, {Vision})) == 2
    ensures Richness(Model(id, name, {ToolCalling})) == 2
    ensures Richness(Model(id, name, {InterleavedField})) == Richness(Model(id, name, {UnsupportedParams})) == 1
  {
  }

  /** Fields add up, and nothing else about an entry counts. */
  lemma RichnessAdds(a: Model, b: Model, both: Model)
    requires a.defined !! b.defined && both.defined == a.defined + b.defined
    ensures Richness(both) == Richness(a) + Richness(b)
  {
    WeightAdds(a, b, both, XHighEffort, 10);
    WeightAdds(a, b, both, Reasoning, 5);
    WeightAdds(a, b, both, ContextLength, 3);
    WeightAdds(a, b, both, MaxOutputTokens, 2);
    WeightAdds(a, b, both, Vision, 2);
    WeightAdds(a, b, both, ToolCalling, 2);
    WeightAdds(a, b, both, InterleavedField, 1);
    WeightAdds(a, b, both, UnsupportedParams, 1);
  }

  lemma WeightAdds(a: Model, b: Model, both: Model, c: Capability, weight: nat)
    requires a.defined !! b.defined && both.defined == a.defined + b.defined
    ensures Weight(both, c, weight) == Weight(a, c, weight) + Weight(b, c, weight)
  {
  }

  // --------------------------------------------------------------------------- positions

  /** Entry `j` of provider `p` is that provider's first with this id. */
  predicate EntryAt(catalog: Catalog, p: nat, j: nat, id: string) {
    && p < |catalog| && j < |catalog[p]| && catalog[p][j].id == id
    && forall k | 0 <= k < j :: catalog[p][k].id != id
  }

  ghost predicate Registered(catalog: Catalog, id: string) {
    exists p: nat, j: nat :: EntryAt(catalog, p, j, id)
  }

  lemma {:induction false} FindAt(models: seq<ProviderModels.Model>, id: string) returns (j: nat)
    ensures
      if Find(models, id).None? then forall k | 0 <= k < |models| :: models[k].id != id
      else
        && j < |models| && Find(models, id) == Some(models[j]) && models[j].id == id
        && forall k | 0 <= k < j :: models[k].id != id
  {
    j := 0;
    if models != [] && models[0].id != id {
      j := FindAt(models[1..], id);
      j := j + 1;
      assert forall k | 0 < k < |models| :: models[k] == models[1..][k - 1];
    }
  }

  lemma {:induction false} HitsConcat(a: Catalog, b: Catalog, id: string)
    ensures Hits(a + b, id) == Hits(a, id) + Hits(b, id)
  {
    if a == [] {
      assert a + b == b;
    } else {
      assert (a + b)[0] == a[0] && (a + b)[1..] == a[1..] + b;
      HitsConcat(a[1..], b, id);
    }
  }

  /** Where the hit of provider `p` stands among the hits: behind those of the providers before it. */
  function Place(catalog: Catalog, p: nat, id: string): nat
    requires p <= |catalog|
  {
    |Hits(catalog[..p], id)|
  }

  lemma HitsOfOne(models: seq<ProviderModels.Model>, id: string)
    ensures Hits([models], id) == if Find(models, id).Some? then [Find(models, id).value] else []
  {
    assert [models][1..] == [];
  }

  lemma EntryIsHit(catalog: Catalog, p: nat, j: nat, id: string)
    requires EntryAt(catalog, p, j, id)
    ensures Place(catalog, p, id) < |Hits(catalog, id)| && Hits(catalog, id)[Place(catalog, p, id)] == catalog[p][j]
    ensures Place(catalog, p + 1, id) == Place(catalog, p, id) + 1
  {
    assert catalog == catalog[..p + 1] + catalog[p + 1..] && catalog[..p + 1] == catalog[..p] + [catalog[p]];
    HitsConcat(catalog[..p + 1], catalog[p + 1..], id);
    HitsConcat(catalog[..p], [catalog[p]], id);
    HitsOfOne(catalog[p], id);
    var i := FindAt(catalog[p], id);
  }

  lemma PlacesGrow(catalog: Catalog, q: nat, p: nat, id: string)
    requires q <= p <= |catalog|
    ensures Place(catalog, q, id) <= Place(catalog, p, id)
  {
    assert catalog[..p] == catalog[..q] + catalog[q..p];
    HitsConcat(catalog[..q], catalog[q..p], id);
  }

  lemma {:induction false} HitIsEntry(catalog: Catalog, id: string, k: nat) returns (p: nat, j: nat)
    requires k < |Hits(catalog, id)|
    ensures EntryAt(catalog, p, j, id) && Place(catalog, p, id) == k && Hits(catalog, id)[k] == catalog[p][j]
  {
    var last := |catalog| - 1;
    var front := catalog[..last];
    assert catalog == front + [catalog[last]];
    HitsConcat(front, [catalog[last]], id);
    HitsOfOne(catalog[last], id);
    if k < |Hits(front, id)| {
      p, j := HitIsEntry(front, id, k);
      assert front[..p] == catalog[..p];
    } else {
      p := last;
      j := FindAt(catalog[last], id);
    }
  }

  lemma HitsIff(catalog: Catalog, id: string)
    ensures Hits(catalog, id) != [] <==> Registered(catalog, id)
  {
    if Hits(catalog, id) != [] {
      var p, j := HitIsEntry(catalog, id, 0);
    }
    if Registered(catalog, id) {
      var p: nat, j: nat :| EntryAt(catalog, p, j, id);
      EntryIsHit(catalog, p, j, id);
    }
  }

  /**
   * The richest registered entry of an id: some provider's first of it, at least as rich as
   * every other provider's first, and richer than those of earlier providers.
   */
  ghost predicate RichestAt(catalog: Catalog, p: nat, j: nat, id: string) {
    && EntryAt(catalog, p, j, id)
    && (forall q: nat, k: nat | EntryAt(catalog, q, k, id) ::
          && Richness(catalog[q][k]) <= Richness(catalog[p][j])
          && (q < p ==> Richness(catalog[q][k]) < Richness(catalog[p][j])))
  }

  lemma RichestPlaced(catalog: Catalog, id: string) returns (p: nat, j: nat)
    requires Registered(catalog, id)
    ensures RichestAt(catalog, p, j, id) && Richest(Hits(catalog, id), id) == Some(catalog[p][j])
  {
    HitsIff(catalog, id);
    HitsHaveId(catalog, id);
    var best := RichestOfHits(catalog, id);
    p, j := HitIsEntry(catalog, id, best);
    forall q: nat, k: nat | EntryAt(catalog, q, k, id)
      ensures Richness(catalog[q][k]) <= Richness(catalog[p][j])
      ensures q < p ==> Richness(catalog[q][k]) < Richness(catalog[p][j])
    {
      Rivals(catalog, id, p, j, best, q, k);
    }
  }

  lemma Rivals(catalog: Catalog, id: string, p: nat, j: nat, best: nat, q: nat, k: nat)
    requires EntryAt(catalog, p, j, id) && EntryAt(catalog, q, k, id) && best == Place(catalog, p, id)
    requires FirstBest(false, id, Hits(catalog, id), best)
    ensures Richness(catalog[q][k]) <= Richness(catalog[p][j])
    ensures q < p ==> Richness(catalog[q][k]) < Richness(catalog[p][j])
  {
    EntryIsHit(catalog, p, j, id);
    EntryIsHit(catalog, q, k, id);
    var hits, i := Hits(catalog, id), Place(catalog, q, id);
    assert StartsWith(id, hits[i].id) && !Better(false, hits[i], hits[best]);
    if q < p {
      PlacesGrow(catalog, q + 1, p, id);
    }
  }

  /** An id some provider registers finds the richest such entry, whatever its basename. */
  lemma GlobalOfRegistered(catalog: Catalog, id: string) returns (p: nat, j: nat)
    requires Registered(catalog, id)
    ensures RichestAt(catalog, p, j, id) && GlobalModel(catalog, id) == Some(catalog[p][j])
  {
    HitsIff(catalog, id);
    p, j := RichestPlaced(catalog, id);
  }

  /** An id nobody registers finds the richest entry of its last path segment, when that is registered. */
  lemma GlobalOfVendorId(catalog: Catalog, vendor: string, model: string) returns (p: nat, j: nat)
    requires model != "" && '/' !in model
    requires !Registered(catalog, vendor + "/" + model) && Registered(catalog, model)
    ensures RichestAt(catalog, p, j, model) && GlobalModel(catalog, vendor + "/" + model) == Some(catalog[p][j])
  {
    HitsIff(catalog, vendor + "/" + model);
    HitsIff(catalog, model);
    BasenameDropsVendor(vendor, model);
    p, j := RichestPlaced(catalog, model);
  }

  /** An id without a slash, or that ends in one, has no other basename. */
  lemma BasenameWhole(id: string)
    requires '/' !in id || id[|id| - 1] == '/'
    ensures Basename(id) == id
  {
    if '/' !in id {
      SplitWhole(id, '/');
    } else {
      var front := id[..|id| - 1];
      assert id == front + "/" + "";
      SplitConcat(front, '/', "");
      SplitWhole("", '/');
    }
  }

  // ---------------------------------------------------------------------- longest prefix

  /** Entry `j` of provider `p` has an id that the base starts with. */
  predicate Candidate(catalog: Catalog, p: nat, j: nat, base: string) {
    p < |catalog| && j < |catalog[p]| && StartsWith(base, catalog[p][j].id)
  }

  /** Shorter, or as long and not richer; strictly so when `strict`. */
  predicate Below(a: Model, b: Model, strict: bool) {
    |a.id| < |b.id| || (|a.id| == |b.id| && (Richness(a) < Richness(b) || (!strict && Richness(a) == Richness(b))))
  }

  /** The first candidate, in catalog order, that no other beats by length and then richness. */
  ghost predicate LongestAt(catalog: Catalog, p: nat, j: nat, base: string) {
    && Candidate(catalog, p, j, base)
    && forall q: nat, k: nat | Candidate(catalog, q, k, base) ::
         Below(catalog[q][k], catalog[p][j], q < p || (q == p && k < j))
  }

  /** Where an entry stands when all lists are put behind each other. */
  function Spot(catalog: Catalog, p: nat, j: nat): nat
    requires p <= |catalog|
  {
    |Flatten(catalog[..p])| + j
  }

  lemma {:induction false} FlattenConcat(a: Catalog, b: Catalog)
    ensures Flatten(a + b) == Flatten(a) + Flatten(b)
  {
    if a == [] {
      assert a + b == b;
    } else {
      assert (a + b)[0] == a[0] && (a + b)[1..] == a[1..] + b;
      FlattenConcat(a[1..], b);
    }
  }

  lemma FlattenOne(models: seq<ProviderModels.Model>)
    ensures Flatten([models]) == models
  {
    assert [models][1..] == [];
  }

  lemma EntryAtSpot(catalog: Catalog, p: nat, j: nat)
    requires p < |catalog| && j < |catalog[p]|
    ensures Spot(catalog, p, j) < |Flatten(catalog)| && Flatten(catalog)[Spot(catalog, p, j)] == catalog[p][j]
  {
    assert catalog == catalog[..p] + [catalog[p]] + catalog[p + 1..];
    FlattenConcat(catalog[..p] + [catalog[p]], catalog[p + 1..]);
    FlattenConcat(catalog[..p], [catalog[p]]);
    FlattenOne(catalog[p]);
  }

  lemma {:induction false} SpotOf(catalog: Catalog, i: nat) returns (p: nat, j: nat)
    requires i < |Flatten(catalog)|
    ensures p < |catalog| && j < |catalog[p]| && Spot(catalog, p, j) == i
  {
    var last := |catalog| - 1;
    var front := catalog[..last];
    assert catalog == front + [catalog[last]];
    FlattenConcat(front, [catalog[last]]);
    FlattenOne(catalog[last]);
    if i < |Flatten(front)| {
      p, j := SpotOf(front, i);
      assert front[..p] == catalog[..p];
    } else {
      p, j := last, i - |Flatten(front)|;
    }
  }

  lemma SpotsGrow(catalog: Catalog, q: nat, k: nat, p: nat, j: nat)
    requires q < p < |catalog| && k < |catalog[q]|
    ensures Spot(catalog, q, k) < Spot(catalog, p, j)
  {
    assert catalog[..p] == catalog[..q] + [catalog[q]] + catalog[q + 1..p];
    FlattenConcat(catalog[..q] + [catalog[q]], catalog[q + 1..p]);
    FlattenConcat(catalog[..q], [catalog[q]]);
    FlattenOne(catalog[q]);
  }

  lemma BeatsAll(catalog: Catalog, base: string, p: nat, j: nat, q: nat, k: nat)
    requires p < |catalog| && j < |catalog[p]| && Candidate(catalog, q, k, base)
    requires FirstBest(true, base, Flatten(catalog), Spot(catalog, p, j))
    ensures Below(catalog[q][k], catalog[p][j], q < p || (q == p && k < j))
  {
    EntryAtSpot(catalog, p, j);
    EntryAtSpot(catalog, q, k);
    var all, best, i := Flatten(catalog), Spot(catalog, p, j), Spot(catalog, q, k);
    assert !Better(true, all[i], all[best]);
    if q < p {
      SpotsGrow(catalog, q, k, p, j);
    }
  }

  /**
   * When neither the id nor its basename is registered, the global lookup finds the first
   * longest, and among those richest, entry whose id the basename starts with, and nothing
   * exactly when there is none.
   */
  lemma GlobalOfUnregistered(catalog: Catalog, id: string) returns (p: nat, j: nat)
    requires !Registered(catalog, id) && !Registered(catalog, Basename(id))
    ensures
      var base := Basename(id);
      if forall q: nat, k: nat :: !Candidate(catalog, q, k, base) then GlobalModel(catalog, id).None?
      else LongestAt(catalog, p, j, base) && GlobalModel(catalog, id) == Some(catalog[p][j])
  {
    var base, all := Basename(id), Flatten(catalog);
    HitsIff(catalog, id);
    HitsIff(catalog, base);
    var best := BestIsFirstBest(true, base, all);
    p, j := 0, 0;
    if GlobalModel(catalog, id).Some? {
      p, j := SpotOf(catalog, best);
      EntryAtSpot(catalog, p, j);
      forall q: nat, k: nat | Candidate(catalog, q, k, base)
        ensures Below(catalog[q][k], catalog[p][j], q < p || (q == p && k < j))
      {
        BeatsAll(catalog, base, p, j, q, k);
      }
      assert Candidate(catalog, p, j, base);
    } else {
      forall q: nat, k: nat ensures !Candidate(catalog, q, k, base) {
        if q < |catalog| && k < |catalog[q]| {
          EntryAtSpot(catalog, q, k);
        }
      }
    }
  }

  // ------------------------------------------------------------------------ exact lookup

  /** Entry `j` of provider `p` is the first of this id in the whole catalog. */
  ghost predicate FirstEntry(catalog: Catalog, p: nat, j: nat, id: string) {
    EntryAt(catalog, p, j, id) && forall q: nat, k: nat | q < p :: !EntryAt(catalog, q, k, id)
  }

  lemma FirstHitPlaced(catalog: Catalog, id: string) returns (p: nat, j: nat)
    ensures FirstHit(catalog, id).Some? <==> Registered(catalog, id)
    ensures Registered(catalog, id) ==>
              FirstEntry(catalog, p, j, id) && FirstHit(catalog, id) == Some(catalog[p][j])
  {
    HitsIff(catalog, id);
    HitsHaveId(catalog, id);
    p, j := 0, 0;
    if Hits(catalog, id) != [] {
      p, j := HitIsEntry(catalog, id, 0);
      forall q: nat, k: nat | q < p ensures !EntryAt(catalog, q, k, id) {
        NoneBefore(catalog, id, p, q, k);
      }
    }
  }

  lemma NoneBefore(catalog: Catalog, id: string, p: nat, q: nat, k: nat)
    requires q < p <= |catalog| && Place(catalog, p, id) == 0
    ensures !EntryAt(catalog, q, k, id)
  {
    PlacesGrow(catalog, q + 1, p, id);
    if EntryAt(catalog, q, k, id) {
      EntryIsHit(catalog, q, k, id);
    }
  }

  /**
   * The exact lookup finds the first entry of the id, else, for an id with a vendor in front,
   * the first of its last path segment, and nothing for an empty id.
   */
  lemma ExactLookup(catalog: Catalog, vendor: string, model: string) returns (p: nat, j: nat)
    requires model != "" && '/' !in model
    ensures Registered(catalog, model) ==>
              FirstEntry(catalog, p, j, model) && FindById(catalog, model) == Some(catalog[p][j])
    ensures !Registered(catalog, model) ==> FindById(catalog, model).None?
    ensures !Registered(catalog, vendor + "/" + model) ==>
              FindById(catalog, vendor + "/" + model) == FindById(catalog, model)
    ensures FindById(catalog, "").None?
  {
    p, j := FirstHitPlaced(catalog, model);
    var _, _ := FirstHitPlaced(catalog, vendor + "/" + model);
    BasenameDropsVendor(vendor, model);
    BasenameWhole(model);
    assert |vendor + "/" + model| > |model|;
  }

  /** The exact lookup prefers the id as it stands. */
  lemma ExactLookupOfRegistered(catalog: Catalog, id: string) returns (p: nat, j: nat)
    requires id != "" && Registered(catalog, id)
    ensures FirstEntry(catalog, p, j, id) && FindById(catalog, id) == Some(catalog[p][j])
  {
    p, j := FirstHitPlaced(catalog, id);
  }
}
