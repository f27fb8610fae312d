/**
 * Looking a model id up across every provider's list: exactly, then by its last path
 * segment, then by the longest registered id it starts with, preferring richer entries.
 */
module ProviderModels {
  import opened Options
  import opened Text

  datatype Capability =
    | XHighEffort | Reasoning | ContextLength | MaxOutputTokens
    | Vision | ToolCalling | InterleavedField | UnsupportedParams

  /** A registry entry; `defined` are the capability fields it sets. */
  datatype Model = Model(id: string, name: string, defined: set<Capability>)

  /** The providers' model lists, in registry order. */
  type Catalog = seq<seq<Model>>

  function Weight(m: Model, c: Capability, weight: nat): nat {
    if c in m.defined then weight else 0
  }

  function Richness(m: Model): nat {
    Weight(m, XHighEffort, 10) + Weight(m, Reasoning, 5) + Weight(m, ContextLength, 3) + Weight(m, MaxOutputTokens, 2)
    + Weight(m, Vision, 2) + Weight(m, ToolCalling, 2)
    + Weight(m, InterleavedField, 1) + Weight(m, UnsupportedParams, 1)
  }

  /** The last non-empty segment of a path, or the whole of it. */
  function Basename(id: string): string {
    var pieces := Split(id, '/');
    var last := pieces[|pieces| - 1];
    if last != "" then last else id
  }

  // -------------------------------------------------------------------- exact lookup

  function Find(models: seq<Model>, id: string): (found: Option<Model>)
    ensures found.Some? ==> found.value in models && found.value.id == id
    ensures found.None? ==> forall m | m in models :: m.id != id
  {
    if models == [] then None
    else if models[0].id == id then Some(models[0])
    else Find(models[1..], id)
  }

  /** The first hit of each provider, in registry order. */
  function Hits(catalog: Catalog, id: string): seq<Model> {
    if catalog == [] then []
    else
      var found := Find(catalog[0], id);
      (if found.Some? then [found.value] else []) + Hits(catalog[1..], id)
  }

  function FirstHit(catalog: Catalog, id: string): Option<Model> {
    if catalog == [] then None
    else
      var found := Find(catalog[0], id);
      if found.Some? then found else FirstHit(catalog[1..], id)
  }

  function FindById(catalog: Catalog, id: string): Option<Model> {
    if id == "" then None
    else if FirstHit(catalog, id).Some? then FirstHit(catalog, id)
    else if Basename(id) == id then None
    else FirstHit(catalog, Basename(id))
  }

  // -------------------------------------------------------------------- best matches

  /** Longer ids first when length matters, then richer entries. */
  predicate Better(byLength: bool, a: Model, b: Model) {
    (byLength && |a.id| > |b.id|) || ((byLength ==> |a.id| == |b.id|) && Richness(a) > Richness(b))
  }

  /** The first best of the models, in list order, whose id starts `base`, starting from `best`. */
  function BestOf(byLength: bool, base: string, best: Option<Model>, models: seq<Model>): Option<Model>
    decreases |models|
  {
    if models == [] then best
    else
      var m := models[0];
      BestOf(byLength, base,
             if StartsWith(base, m.id) && (best.None? || Better(byLength, m, best.value)) then Some(m) else best,
             models[1..])
  }

  function Flatten(catalog: Catalog): seq<Model> {
    if catalog == [] then [] else catalog[0] + Flatten(catalog[1..])
  }

  /** `m` is the first of the matching models that no other beats. */
  ghost predicate FirstBest(byLength: bool, base: string, models: seq<Model>, k: nat) {
    && k < |models| && StartsWith(base, models[k].id)
    && (forall i | 0 <= i < |models| && StartsWith(base, models[i].id) :: !Better(byLength, models[i], models[k]))
    && (forall i | 0 <= i < k && StartsWith(base, models[i].id) :: Better(byLength, models[k], models[i]))
  }

  /** No match beats `best`. */
  ghost predicate Unbeaten(byLength: bool, base: string, models: seq<Model>, best: Model) {
    forall i | 0 <= i < |models| && StartsWith(base, models[i].id) :: !Better(byLength, models[i], best)
  }

  lemma FirstBestShifts(byLength: bool, base: string, models: seq<Model>, k: nat)
    requires models != [] && FirstBest(byLength, base, models[1..], k)
    requires StartsWith(base, models[0].id) ==> Better(byLength, models[1..][k], models[0])
    ensures FirstBest(byLength, base, models, k + 1)
  {
    assert forall i | 0 < i < |models| :: models[i] == models[1..][i - 1];
  }

  lemma FirstIsBest(byLength: bool, base: string, models: seq<Model>)
    requires models != [] && StartsWith(base, models[0].id) && Unbeaten(byLength, base, models[1..], models[0])
    ensures FirstBest(byLength, base, models, 0)
  {
    assert forall i | 0 < i < |models| :: models[i] == models[1..][i - 1];
  }

  lemma BetterIsStrictWeak(byLength: bool, a: Model, b: Model, c: Model)
    ensures Better(byLength, a, b) && !Better(byLength, c, b) ==> Better(byLength, a, c)
    ensures Better(byLength, a, b) && Better(byLength, b, c) ==> Better(byLength, a, c)
    ensures !Better(byLength, a, b) && !Better(byLength, b, c) ==> !Better(byLength, a, c)
  {
  }

  lemma {:induction false} BestFromSome(byLength: bool, base: string, best: Model, models: seq<Model>) returns (k: nat)
    ensures
      var r := BestOf(byLength, base, Some(best), models);
      if k == |models| then r == Some(best) && Unbeaten(byLength, base, models, best)
      else FirstBest(byLength, base, models, k) && r == Some(models[k]) && Better(byLength, models[k], best)
    decreases |models|
  {
    if models == [] {
      k := 0;
    } else {
      var m, tail := models[0], models[1..];
      if StartsWith(base, m.id) && Better(byLength, m, best) {
        k := BestFromSome(byLength, base, m, tail);
        if k == |tail| {
          FirstIsBest(byLength, base, models);
          k := 0;
        } else {
          FirstBestShifts(byLength, base, models, k);
          BetterIsStrictWeak(byLength, tail[k], m, best);
          k := k + 1;
        }
      } else {
        k := BestFromSome(byLength, base, best, tail);
        if k == |tail| {
          assert forall i | 0 < i < |models| :: models[i] == tail[i - 1];
        } else {
          BetterIsStrictWeak(byLength, tail[k], best, m);
          FirstBestShifts(byLength, base, models, k);
        }
        k := k + 1;
      }
    }
  }

  /** What the scan returns: nothing when nothing matches, else the first match no other beats. */
  lemma {:induction false} BestIsFirstBest(byLength: bool, base: string, models: seq<Model>) returns (k: nat)
    ensures
      var r := BestOf(byLength, base, None, models);
      if r.None? then forall m | m in models :: !StartsWith(base, m.id)
      else FirstBest(byLength, base, models, k) && r == Some(models[k])
    decreases |models|
  {
    if models == [] {
      k := 0;
    } else if StartsWith(base, models[0].id) {
      k := BestFromSome(byLength, base, models[0], models[1..]);
      if k == |models| - 1 {
        FirstIsBest(byLength, base, models);
        k := 0;
      } else {
        FirstBestShifts(byLength, base, models, k);
        k := k + 1;
      }
    } else {
      k := BestIsFirstBest(byLength, base, models[1..]);
      if BestOf(byLength, base, None, models).Some? {
        FirstBestShifts(byLength, base, models, k);
      }
      k := k + 1;
    }
  }

  // ------------------------------------------------------------------- global lookup

  /** The richest of the exact hits; a stable sort by richness puts the first richest in front. */
  function Richest(hits: seq<Model>, id: string): Option<Model> {
    BestOf(false, id, None, hits)
  }

  function GlobalModel(catalog: Catalog, id: string): Option<Model> {
    var base := Basename(id);
    if Hits(catalog, id) != [] then Richest(Hits(catalog, id), id)
    else if Hits(catalog, base) != [] then Richest(Hits(catalog, base), base)
    else BestOf(true, base, None, Flatten(catalog))
  }

  method CollectHits(catalog: Catalog, id: string) returns (candidates: seq<Model>)
    ensures candidates == Hits(catalog, id)
  {
    candidates := [];
    for i := 0 to |catalog|
      invariant candidates + Hits(catalog[i..], id) == Hits(catalog, id)
    {
      var found := Find(catalog[i], id);
      if found.Some? {
        assert candidates + ([found.value] + Hits(catalog[i + 1..], id)) ==
            candidates + [found.value] + Hits(catalog[i + 1..], id);
        candidates := candidates + [found.value];
      } else {
        assert [] + Hits(catalog[i + 1..], id) == Hits(catalog[i + 1..], id);
      }
    }
  }

  method GetGlobalModel(catalog: Catalog, modelId: string) returns (r: Option<Model>)
    ensures r == GlobalModel(catalog, modelId)
  {
    var candidates := CollectHits(catalog, modelId);
    if candidates != [] {
      return Richest(candidates, modelId);
    }
    var basename := Basename(modelId);
    candidates := CollectHits(catalog, basename);
    if candidates != [] {
      return Richest(candidates, basename);
    }
    var bestMatch: Option<Model> := None;
    for i := 0 to |catalog|
      invariant BestOf(true, basename, bestMatch, Flatten(catalog[i..])) ==
                BestOf(true, basename, None, Flatten(catalog))
    {
      var models := catalog[i];
      ghost var later := Flatten(catalog[i + 1..]);
      for j := 0 to |models|
        invariant BestOf(true, basename, bestMatch, models[j..] + later) ==
                  BestOf(true, basename, None, Flatten(catalog))
      {
        var m := models[j];
        assert (models[j..] + later)[0] == m && (models[j..] + later)[1..] == models[j + 1..] + later;
        if StartsWith(basename, m.id) && (bestMatch.None? || Better(true, m, bestMatch.value)) {
          bestMatch := Some(m);
        }
      }
      assert models[|models|..] + later == later;
    }
    return bestMatch;
  }

  // ------------------------------------------------------------------------- laws

  lemma {:induction false} HitsHaveId(catalog: Catalog, id: string)
    ensures forall m | m in Hits(catalog, id) :: m.id == id
    ensures FirstHit(catalog, id).Some? <==> Hits(catalog, id) != []
    ensures FirstHit(catalog, id).Some? ==> FirstHit(catalog, id).value == Hits(catalog, id)[0]
  {
    if catalog != [] {
      HitsHaveId(catalog[1..], id);
    }
  }

  /** Of the exact hits it is the first of the richest: what a stable sort by falling richness puts in front. */
  lemma RichestOfHits(catalog: Catalog, id: string) returns (k: nat)
    requires Hits(catalog, id) != []
    ensures
      var (hits, r) := (Hits(catalog, id), Richest(Hits(catalog, id), id));
      FirstBest(false, id, hits, k) && r == Some(hits[k])
    ensures
      var (hits, r) := (Hits(catalog, id), Richest(Hits(catalog, id), id));
      r.Some? && r.value in hits && r.value.id == id && forall m | m in hits :: Richness(m) <= Richness(r.value)
  {
    HitsHaveId(catalog, id);
    var hits := Hits(catalog, id);
    assert hits[0] in hits;
    k := BestIsFirstBest(false, id, hits);
    assert StartsWith(id, hits[0].id);
    forall m | m in hits ensures Richness(m) <= Richness(Richest(hits, id).value) {
      var i :| 0 <= i < |hits| && hits[i] == m;
    }
  }

  /**
   * Whenever the exact lookup finds an entry, the global one finds an entry with the same id,
   * at least as rich.
   */
  lemma GlobalAgreesWithExact(catalog: Catalog, id: string)
    requires FindById(catalog, id).Some?
    ensures
      var (found, r) := (FindById(catalog, id).value, GlobalModel(catalog, id));
      r.Some? && r.value.id == found.id && Richness(found) <= Richness(r.value)
  {
    var base := Basename(id);
    HitsHaveId(catalog, id);
    HitsHaveId(catalog, base);
    if Hits(catalog, id) != [] {
      var _ := RichestOfHits(catalog, id);
    } else {
      var _ := RichestOfHits(catalog, base);
    }
  }

  /**
   * Otherwise it is the first entry, longest id first and then richest, among all registered
   * entries whose id the basename starts with; and none exactly when there is no such entry.
   * The one exception is the empty id, which the exact lookup refuses but the global one finds
   * when it is registered: then it is the first richest of its exact hits.
   */
  lemma GlobalFallsBackToLongestPrefix(catalog: Catalog, id: string) returns (k: nat)
    requires FindById(catalog, id).None?
    ensures FirstHit(catalog, id).Some? ==> id == ""
    ensures
      var (all, hits, base, r) := (Flatten(catalog), Hits(catalog, id), Basename(id), GlobalModel(catalog, id));
      if FirstHit(catalog, id).Some? then FirstBest(false, id, hits, k) && r == Some(hits[k])
      else
        && (r.None? <==> forall m | m in all :: !StartsWith(base, m.id))
        && (r.Some? ==> FirstBest(true, base, all, k) && r == Some(all[k]))
  {
    var base := Basename(id);
    HitsHaveId(catalog, id);
    HitsHaveId(catalog, base);
    if id == "" {
      assert base == "";
    }
    if FirstHit(catalog, id).Some? {
      k := RichestOfHits(catalog, id);
    } else {
      k := BestIsFirstBest(true, base, Flatten(catalog));
    }
  }

  /** A vendor prefix, with as many segments as it likes, is dropped. */
  lemma BasenameDropsVendor(vendor: string, model: string)
    requires model != "" && '/' !in model
    ensures Basename(vendor + "/" + model) == model
  {
    SplitConcat(vendor, '/', model);
    SplitWhole(model, '/');
  }
}
