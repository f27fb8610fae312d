/**
 * What the embedding and rerank registries share: provider aliases, provider-scoped model
 * ids, and the catalog of scoped ids. Both files define these functions in the same words.
 */
module ScopedModels {
  import opened ModelIds
  import opened Options
  import opened Text

  /** Providers in registry order, each with its models. */
  type Registry = seq<(string, seq<Model>)>

  type Aliases = map<string, string>

  function Resolve(aliases: Aliases, providerId: string): string {
    if providerId in aliases && aliases[providerId] != "" then aliases[providerId] else providerId
  }

  predicate Lists(models: seq<Model>, id: string) {
    exists i | 0 <= i < |models| :: models[i].id == id
  }

  function Find(registry: Registry, key: string): Option<seq<Model>> {
    if registry == [] then None
    else if registry[0].0 == key then Some(registry[0].1)
    else Find(registry[1..], key)
  }

  /** The id the provider lists for `modelId`: as given, else scoped, else with its scope dropped. */
  function Normalize(registry: Registry, aliases: Aliases, providerId: string, modelId: string): string {
    var resolved := Resolve(aliases, providerId);
    var provider := Find(registry, resolved);
    if provider.Some? && Lists(provider.value, modelId) then modelId
    else if provider.Some? && Lists(provider.value, resolved + "/" + modelId) then resolved + "/" + modelId
    else if StartsWith(modelId, providerId + "/") then modelId[|providerId| + 1..]
    else modelId
  }

  function Scoped(providerId: string, modelId: string): string {
    if StartsWith(modelId, providerId + "/") then modelId else providerId + "/" + modelId
  }

  /** The first provider whose key, followed by a slash, starts the string. */
  function ByPrefix(registry: Registry, aliases: Aliases, providers: Registry, s: string): Option<Parsed> {
    if providers == [] then None
    else
      var id := providers[0].0;
      if StartsWith(s, id + "/") then Some(Parsed(Some(id), Some(Normalize(registry, aliases, id, s[|id| + 1..]))))
      else ByPrefix(registry, aliases, providers[1..], s)
  }

  /** The first provider that lists the bare id. */
  function FirstLister(registry: Registry, id: string): Option<string> {
    if registry == [] then None
    else if Lists(registry[0].1, id) then Some(registry[0].0)
    else FirstLister(registry[1..], id)
  }

  // ---------------------------------------------------------- lookups, by position

  /** Provider `i` is the first with this key. */
  predicate KeyAt(registry: Registry, i: nat, key: string) {
    i < |registry| && registry[i].0 == key && forall k | 0 <= k < i :: registry[k].0 != key
  }

  ghost predicate IsKey(registry: Registry, key: string) {
    exists i: nat :: KeyAt(registry, i, key)
  }

  /** The provider with this key lists this model. */
  ghost predicate ProviderHas(registry: Registry, key: string, id: string) {
    exists i: nat, j: nat :: KeyAt(registry, i, key) && j < |registry[i].1| && registry[i].1[j].id == id
  }

  /** An id stands for the provider its alias names, or for itself without one. */
  predicate StandsFor(aliases: Aliases, id: string, key: string) {
    if id in aliases && |aliases[id]| > 0 then key == aliases[id] else key == id
  }

  lemma {:induction false} FoundAt(registry: Registry, key: string) returns (i: nat)
    ensures
      if Find(registry, key).None? then forall k: nat :: !KeyAt(registry, k, key)
      else KeyAt(registry, i, key) && Find(registry, key) == Some(registry[i].1)
  {
    i := 0;
    if registry != [] && registry[0].0 != key {
      i := FoundAt(registry[1..], key);
      i := i + 1;
      forall k: nat | k > 0 ensures KeyAt(registry, k, key) ==> KeyAt(registry[1..], k - 1, key) {
        assert k < |registry| ==> forall m | 0 <= m < k :: registry[1..][m] == registry[m + 1];
      }
      assert forall m | 0 < m < |registry| :: registry[m] == registry[1..][m - 1];
    }
  }

  lemma FindIff(registry: Registry, key: string)
    ensures Find(registry, key).Some? <==> IsKey(registry, key)
    ensures forall id :: Find(registry, key).Some? && Lists(Find(registry, key).value, id) <==>
              ProviderHas(registry, key, id)
  {
    var i := FoundAt(registry, key);
    forall k: nat | KeyAt(registry, k, key) && KeyAt(registry, i, key) ensures k == i {
    }
    forall id
      ensures Find(registry, key).Some? && Lists(Find(registry, key).value, id) <==> ProviderHas(registry, key, id)
    {
      if Find(registry, key).Some? && Lists(Find(registry, key).value, id) {
        var j :| 0 <= j < |registry[i].1| && registry[i].1[j].id == id;
        assert KeyAt(registry, i, key) && j < |registry[i].1|;
      }
    }
  }

  /**
   * The id a provider lists for what the client calls a model: as called; else under the
   * provider's own prefix; else without that prefix; else as called.
   */
  lemma NormalizeIs(registry: Registry, aliases: Aliases, providerId: string, key: string, modelId: string)
    requires StandsFor(aliases, providerId, key)
    ensures Normalize(registry, aliases, providerId, modelId) ==
              if ProviderHas(registry, key, modelId) then modelId
              else if ProviderHas(registry, key, key + "/" + modelId) then key + "/" + modelId
              else if StartsWith(modelId, providerId + "/") then modelId[|providerId + "/"|..]
              else modelId
  {
    FindIff(registry, key);
  }

  lemma FirstSlash(a: string, rest: string)
    requires '/' !in a
    ensures IndexOf(a + "/" + rest, '/') == |a|
    ensures (a + "/" + rest)[..|a|] == a && (a + "/" + rest)[|a| + 1..] == rest
  {
    var s := a + "/" + rest;
    var i := IndexOf(s, '/');
    assert s[|a|] == '/' && forall k | 0 <= k < |a| :: s[k] == a[k] && a[k] in a;
    assert forall k | 0 <= k < i :: s[..i][k] == s[k];
  }

  /** The first part of the string, if there is one before a slash, names no provider. */
  ghost predicate NoKnownProvider(registry: Registry, aliases: Aliases, s: string) {
    forall a, rest, key | s == a + "/" + rest && a != "" && '/' !in a && StandsFor(aliases, a, key) ::
        !IsKey(registry, key)
  }

  lemma UnknownFirst(registry: Registry, aliases: Aliases, s: string)
    requires NoKnownProvider(registry, aliases, s)
    ensures var slash := IndexOf(s, '/'); slash > 0 ==> Find(registry, Resolve(aliases, s[..slash])).None?
  {
    var slash := IndexOf(s, '/');
    if slash > 0 {
      var a, rest := s[..slash], s[slash + 1..];
      assert s == a + "/" + rest;
      assert StandsFor(aliases, a, Resolve(aliases, a));
      FindIff(registry, Resolve(aliases, a));
    }
  }

  /** Provider `i` is the first whose key, followed by a slash, starts the string. */
  predicate FirstPrefix(registry: Registry, i: nat, s: string) {
    i < |registry| && StartsWith(s, registry[i].0 + "/")
    && forall k | 0 <= k < i :: !StartsWith(s, registry[k].0 + "/")
  }

  predicate NoPrefix(registry: Registry, s: string) {
    forall k | 0 <= k < |registry| :: !StartsWith(s, registry[k].0 + "/")
  }

  lemma {:induction false} ByFirstPrefix(registry: Registry, aliases: Aliases, providers: Registry, i: nat, s: string)
    requires FirstPrefix(providers, i, s)
    ensures
      var key := providers[i].0;
      ByPrefix(registry, aliases, providers, s) ==
        Some(Parsed(Some(key), Some(Normalize(registry, aliases, key, s[|key| + 1..]))))
  {
    if i > 0 {
      assert !StartsWith(s, providers[0].0 + "/");
      assert FirstPrefix(providers[1..], i - 1, s);
      ByFirstPrefix(registry, aliases, providers[1..], i - 1, s);
    }
  }

  lemma {:induction false} ByNoPrefix(registry: Registry, aliases: Aliases, providers: Registry, s: string)
    requires NoPrefix(providers, s)
    ensures ByPrefix(registry, aliases, providers, s).None?
  {
    if providers != [] {
      ByNoPrefix(registry, aliases, providers[1..], s);
    }
  }

  /** Provider `i` has a model of exactly that id. */
  predicate ListsAt(registry: Registry, i: nat, id: string) {
    i < |registry| && exists j | 0 <= j < |registry[i].1| :: registry[i].1[j].id == id
  }

  /** The answer for a string without a provider: the first provider that lists it, or none, and the string itself. */
  ghost predicate BareAnswer(registry: Registry, s: string, parsed: Parsed) {
    && parsed.model == Some(s)
    && (forall i: nat | ListsAt(registry, i, s) && (forall k: nat | k < i :: !ListsAt(registry, k, s)) ::
          parsed.provider == Some(registry[i].0))
    && ((forall i: nat :: !ListsAt(registry, i, s)) ==> parsed.provider.None?)
  }

  lemma {:induction false} FirstListerIs(registry: Registry, s: string)
    ensures BareAnswer(registry, s, Parsed(FirstLister(registry, s), Some(s)))
  {
    if registry != [] {
      assert Lists(registry[0].1, s) <==> ListsAt(registry, 0, s);
      FirstListerIs(registry[1..], s);
      forall i: nat | i > 0 ensures ListsAt(registry, i, s) == ListsAt(registry[1..], i - 1, s) {
        assert i < |registry| ==> registry[i] == registry[1..][i - 1];
      }
      if !Lists(registry[0].1, s) {
        ShiftedFirst(registry, s);
      }
    }
  }

  lemma ShiftedFirst(registry: Registry, s: string)
    requires registry != [] && !ListsAt(registry, 0, s)
    ensures forall i: nat | ListsAt(registry, i, s) && (forall k: nat | k < i :: !ListsAt(registry, k, s)) ::
              && i > 0 && ListsAt(registry[1..], i - 1, s)
              && forall k: nat | k < i - 1 :: !ListsAt(registry[1..], k, s)
    ensures (forall i: nat :: !ListsAt(registry, i, s)) ==> forall i: nat :: !ListsAt(registry[1..], i, s)
  {
    forall i: nat ensures ListsAt(registry[1..], i, s) == ListsAt(registry, i + 1, s) {
      assert i + 1 < |registry| ==> registry[i + 1] == registry[1..][i];
    }
    forall i: nat | ListsAt(registry, i, s) && (forall k: nat | k < i :: !ListsAt(registry, k, s))
      ensures i > 0 && ListsAt(registry[1..], i - 1, s) && forall k: nat | k < i - 1 :: !ListsAt(registry[1..], k, s)
    {
      forall k: nat | k < i - 1 ensures !ListsAt(registry[1..], k, s) {
        assert !ListsAt(registry, k + 1, s);
      }
    }
  }

  /** The catalog of two registries, one behind the other, is their catalogs in that order. */
  lemma {:induction false} CatalogOfConcat(a: Registry, b: Registry)
    ensures AllModels(a + b) == AllModels(a) + AllModels(b)
  {
    if a == [] {
      assert a + b == b;
    } else {
      assert (a + b)[0] == a[0] && (a + b)[1..] == a[1..] + b;
      CatalogOfConcat(a[1..], b);
    }
  }

  /**
   * A provider's models are listed in order, each once, under the provider's key; an id that has
   * that prefix keeps it.
   */
  lemma CatalogOfOne(key: string, models: seq<Model>, j: nat)
    requires j < |models|
    ensures |AllModels([(key, models)])| == |models|
    ensures AllModels([(key, models)])[j].provider == key && AllModels([(key, models)])[j].name == models[j].name
    ensures
      var id := AllModels([(key, models)])[j].id;
      && StartsWith(id, key + "/")
      && (id == models[j].id || (id == key + "/" + models[j].id && !StartsWith(models[j].id, key + "/")))
  {
    assert [(key, models)][1..] == [];
    assert AllModels([(key, models)]) == OfProvider(key, models);
  }

  // -------------------------------------------------------------------- catalog ids

  function OfProvider(providerId: string, models: seq<Model>): seq<CatalogEntry> {
    seq(|models|, i requires 0 <= i < |models| =>
      CatalogEntry(Scoped(providerId, models[i].id), models[i].name, providerId))
  }

  function AllModels(registry: Registry): seq<CatalogEntry> {
    if registry == [] then []
    else OfProvider(registry[0].0, registry[0].1) + AllModels(registry[1..])
  }

  method GetAllModels(registry: Registry) returns (all: seq<CatalogEntry>)
    ensures all == AllModels(registry)
  {
    all := [];
    for i := 0 to |registry|
      invariant all + AllModels(registry[i..]) == AllModels(registry)
    {
      var (providerId, models) := registry[i];
      ghost var before := all;
      for j := 0 to |models|
        invariant all == before + OfProvider(providerId, models)[..j]
      {
        all := all + [CatalogEntry(Scoped(providerId, models[j].id), models[j].name, providerId)];
      }
      assert all + AllModels(registry[i + 1..]) ==
          before + (OfProvider(providerId, models) + AllModels(registry[i + 1..]));
    }
  }

  lemma {:induction false} ListingOf(registry: Registry, e: CatalogEntry) returns (i: nat, j: nat)
    requires e in AllModels(registry)
    ensures i < |registry| && j < |registry[i].1|
    ensures e == CatalogEntry(Scoped(registry[i].0, registry[i].1[j].id), registry[i].1[j].name, registry[i].0)
  {
    if e in OfProvider(registry[0].0, registry[0].1) {
      i := 0;
      j :| 0 <= j < |registry[0].1| && e == OfProvider(registry[0].0, registry[0].1)[j];
    } else {
      i, j := ListingOf(registry[1..], e);
      i := i + 1;
    }
  }

  ghost predicate KeysDistinct(registry: Registry) {
    forall i, j | 0 <= i < j < |registry| :: registry[i].0 != registry[j].0
  }

  lemma {:induction false} FindAt(registry: Registry, i: nat)
    requires KeysDistinct(registry) && i < |registry|
    ensures Find(registry, registry[i].0) == Some(registry[i].1)
  {
    if i > 0 {
      FindAt(registry[1..], i - 1);
    }
  }

  // --------------------------------------------------------------------- round trip

  /** A key a scoped id can be read back by: not empty, without a slash, and not an alias of another. */
  predicate PlainKey(aliases: Aliases, key: string) {
    key != "" && '/' !in key && Resolve(aliases, key) == key
  }

  /** The provider lists both `x` and its own scoped form of a shorter id it also lists. */
  predicate Shadowed(providerId: string, models: seq<Model>, modelId: string) {
    StartsWith(modelId, providerId + "/") && Lists(models, modelId[|providerId| + 1..])
  }

  lemma ScopedParts(providerId: string, modelId: string)
    requires '/' !in providerId
    ensures
      var (s, slash) := (Scoped(providerId, modelId), |providerId|);
      && slash < |s| && s[..slash] == providerId && IndexOf(s, '/') == slash
      && s[slash + 1..] == if StartsWith(modelId, providerId + "/") then modelId[slash + 1..] else modelId
  {
    var s, slash := Scoped(providerId, modelId), |providerId|;
    assert StartsWith(s, providerId + "/") && s[slash] == '/';
    assert s[..slash] == (providerId + "/")[..slash] == providerId;
    var i := IndexOf(s, '/');
    assert forall k | 0 <= k < slash :: s[k] == providerId[k] && providerId[k] in providerId;
    assert forall k | 0 <= k < i :: s[..i][k] == s[k];
  }

  /** Reading the scoped form of a listed id gives that id back unless a shorter listed id shadows it. */
  lemma NormalizeScoped(registry: Registry, aliases: Aliases, providerId: string, models: seq<Model>, modelId: string)
    requires PlainKey(aliases, providerId)
    requires Find(registry, providerId) == Some(models) && Lists(models, modelId)
    ensures Normalize(registry, aliases, providerId, Scoped(providerId, modelId)[|providerId| + 1..]) == modelId
       <==> !Shadowed(providerId, models, modelId)
  {
    ScopedParts(providerId, modelId);
    var tail := Scoped(providerId, modelId)[|providerId| + 1..];
    if StartsWith(modelId, providerId + "/") {
      assert modelId == providerId + "/" + tail;
    }
  }
}
