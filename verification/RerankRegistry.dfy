/** Parsing rerank model strings. */
module RerankRegistry {
  import opened ModelIds
  import opened Options
  import opened Text
  import opened ScopedModels

  function Parse(registry: Registry, aliases: Aliases, modelStr: Option<string>): Parsed {
    if modelStr.None? || modelStr.value == "" then Parsed(None, None)
    else
      var s := modelStr.value;
      var slash := IndexOf(s, '/');
      var resolved := if slash > 0 then Resolve(aliases, s[..slash]) else "";
      if slash > 0 && Find(registry, resolved).Some? then
        Parsed(Some(resolved), Some(Normalize(registry, aliases, resolved, s[slash + 1..])))
      else
        var prefixed := ByPrefix(registry, aliases, registry, s);
        if prefixed.Some? then prefixed.value else Parsed(FirstLister(registry, s), Some(s))
  }

  /** A string whose first part names a provider, itself or by alias, is that provider's. */
  lemma KnownProviderComesFirst(registry: Registry, aliases: Aliases, a: string, rest: string, key: string)
    requires a != "" && '/' !in a && StandsFor(aliases, a, key) && IsKey(registry, key)
    ensures Parse(registry, aliases, Some(a + "/" + rest)) ==
              Parsed(Some(key), Some(Normalize(registry, aliases, key, rest)))
  {
    FirstSlash(a, rest);
    FindIff(registry, key);
  }

  /**
   * Failing that, the first key that starts it with a slash decides, and failing that, the first
   * provider that lists it.
   */
  lemma OtherStrings(registry: Registry, aliases: Aliases, s: string)
    requires s != "" && NoKnownProvider(registry, aliases, s)
    ensures forall i: nat | FirstPrefix(registry, i, s) ::
              var key := registry[i].0;
              Parse(registry, aliases, Some(s)) ==
                Parsed(Some(key), Some(Normalize(registry, aliases, key, s[|key| + 1..])))
    ensures NoPrefix(registry, s) ==> BareAnswer(registry, s, Parse(registry, aliases, Some(s)))
    ensures Parse(registry, aliases, None) == Parse(registry, aliases, Some("")) == Parsed(None, None)
  {
    UnknownFirst(registry, aliases, s);
    forall i: nat | FirstPrefix(registry, i, s) {
      ByFirstPrefix(registry, aliases, registry, i, s);
    }
    if NoPrefix(registry, s) {
      ByNoPrefix(registry, aliases, registry, s);
      FirstListerIs(registry, s);
    }
  }

  /** A listed model's scoped id parses back to provider and model exactly when nothing shadows it. */
  lemma ScopedIdRoundTrip(registry: Registry, aliases: Aliases, providerId: string, models: seq<Model>, modelId: string)
    requires PlainKey(aliases, providerId)
    requires Find(registry, providerId) == Some(models) && Lists(models, modelId)
    ensures Parse(registry, aliases, Some(Scoped(providerId, modelId))) == Parsed(Some(providerId), Some(modelId))
       <==> !Shadowed(providerId, models, modelId)
  {
    ScopedParts(providerId, modelId);
    NormalizeScoped(registry, aliases, providerId, models, modelId);
  }

  /** Every id of the rerank catalog parses back to its provider and model. */
  lemma CatalogRoundTrip(registry: Registry, aliases: Aliases, e: CatalogEntry) returns (i: nat, j: nat)
    requires KeysDistinct(registry)
    requires forall k | 0 <= k < |registry| :: PlainKey(aliases, registry[k].0)
    requires forall k, l | 0 <= k < |registry| && 0 <= l < |registry[k].1| ::
      !Shadowed(registry[k].0, registry[k].1, registry[k].1[l].id)
    requires e in AllModels(registry)
    ensures i < |registry| && j < |registry[i].1|
    ensures e == CatalogEntry(Scoped(registry[i].0, registry[i].1[j].id), registry[i].1[j].name, registry[i].0)
    ensures Parse(registry, aliases, Some(e.id)) == Parsed(Some(registry[i].0), Some(registry[i].1[j].id))
  {
    i, j := ListingOf(registry, e);
    FindAt(registry, i);
    ScopedIdRoundTrip(registry, aliases, registry[i].0, registry[i].1, registry[i].1[j].id);
  }
}
