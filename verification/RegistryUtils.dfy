/**
 * The registry helpers shared by the media catalogs: parsing a "provider/model" string
 * against a registry, with a cached model index behind the bare-model lookup, and listing
 * every catalog id a registry offers.
 *
 * `Parse` is the specification: prefixes in registry order, then a linear scan for the
 * bare id. The cached index must be unobservable, and every listed id must parse back.
 */
module RegistryUtils {
  import opened ModelIds
  import opened Options
  import opened Text

  datatype Provider = Provider(alias: Option<string>, models: seq<Model>)

  /** A registry in its iteration order; a key occurs once. */
  type Entries = seq<(string, Provider)>

  ghost predicate KeysDistinct(entries: Entries) {
    forall i, j | 0 <= i < j < |entries| :: entries[i].0 != entries[j].0
  }

  // --------------------------------------------------------------- specification

  predicate Lists(p: Provider, id: string) {
    exists i | 0 <= i < |p.models| :: p.models[i].id == id
  }

  /** The first provider that lists the bare id. */
  function FirstLister(entries: Entries, id: string): Option<string> {
    if entries == [] then None
    else if Lists(entries[0].1, id) then Some(entries[0].0)
    else FirstLister(entries[1..], id)
  }

  predicate UsableAlias(p: Provider) {
    p.alias.Some? && p.alias.value != ""
  }

  /** The first provider whose key or alias, followed by a slash, starts the string. */
  function ByPrefix(entries: Entries, s: string): Option<Parsed> {
    if entries == [] then None
    else
      var (id, p) := entries[0];
      if StartsWith(s, id + "/") then Some(Parsed(Some(id), Some(s[|id| + 1..])))
      else if UsableAlias(p) && StartsWith(s, p.alias.value + "/") then
        Some(Parsed(Some(id), Some(s[|p.alias.value| + 1..])))
      else ByPrefix(entries[1..], s)
  }

  /** A parse whose prefixes come from `entries` and whose bare ids come from `indexed`. */
  function ParseWith(entries: Entries, indexed: Entries, modelStr: Option<string>): Parsed {
    if modelStr.None? || modelStr.value == "" then Parsed(None, None)
    else
      var s := modelStr.value;
      var prefixed := ByPrefix(entries, s);
      var lister := FirstLister(indexed, s);
      if prefixed.Some? then prefixed.value
      else if lister.Some? && lister.value != "" then Parsed(lister, Some(s))
      else Parsed(None, Some(s))
  }

  /** The plain scan of one registry. */
  function Parse(entries: Entries, modelStr: Option<string>): Parsed {
    ParseWith(entries, entries, modelStr)
  }

  // ------------------------------------------------------------------ cached index

  // ------------------------------------------------------ what a parse answers, by position

  /** Provider `i`'s key or non-empty alias, followed by a slash, starts the string. */
  predicate Opens(entries: Entries, i: nat, s: string) {
    && i < |entries|
    && (|| StartsWith(s, entries[i].0 + "/")
        || (entries[i].1.alias.Some? && entries[i].1.alias.value != "" &&
            StartsWith(s, entries[i].1.alias.value + "/")))
  }

  ghost predicate Unprefixed(entries: Entries, s: string) {
    forall i: nat | i < |entries| :: !Opens(entries, i, s)
  }

  /** Provider `i` has a model of exactly that id. */
  ghost predicate ListsAt(entries: Entries, i: nat, s: string) {
    i < |entries| && exists j: nat | j < |entries[i].1.models| :: entries[i].1.models[j].id == s
  }

  ghost predicate FirstToList(entries: Entries, i: nat, s: string) {
    ListsAt(entries, i, s) && forall k: nat | k < i :: !ListsAt(entries, k, s)
  }

  lemma {:induction false} ListerAt(entries: Entries, s: string) returns (i: nat)
    ensures
      if FirstLister(entries, s).None? then forall k: nat :: !ListsAt(entries, k, s)
      else FirstToList(entries, i, s) && FirstLister(entries, s) == Some(entries[i].0)
  {
    i := 0;
    if entries != [] {
      assert Lists(entries[0].1, s) <==> ListsAt(entries, 0, s);
      if !Lists(entries[0].1, s) {
        i := ListerAt(entries[1..], s);
        i := i + 1;
        forall k: nat | k > 0 ensures ListsAt(entries, k, s) == ListsAt(entries[1..], k - 1, s) {
          assert k < |entries| ==> entries[k] == entries[1..][k - 1];
        }
        assert forall k: nat :: ListsAt(entries, k, s) ==> k > 0 && ListsAt(entries[1..], k - 1, s);
      }
    }
  }

  lemma {:induction false} NoPrefix(entries: Entries, s: string)
    requires Unprefixed(entries, s)
    ensures ByPrefix(entries, s).None?
  {
    if entries != [] {
      assert !Opens(entries, 0, s);
      forall i: nat | i < |entries| - 1 ensures !Opens(entries[1..], i, s) {
        assert entries[1..][i] == entries[i + 1] && !Opens(entries, i + 1, s);
      }
      NoPrefix(entries[1..], s);
    }
  }

  /**
   * What a model string that no prefix starts is read as: the first provider that lists it, if
   * that provider has a name, with the string as its model; else no provider. Nothing is read
   * as nothing.
   */
  ghost predicate BareAnswer(entries: Entries, listed: Entries, modelStr: Option<string>, parsed: Parsed) {
    && (modelStr.None? || modelStr == Some("") ==> parsed.provider.None? && parsed.model.None?)
    && (modelStr.Some? && modelStr.value != "" && Unprefixed(entries, modelStr.value) ==>
          && parsed.model == modelStr
          && (forall i: nat | FirstToList(listed, i, modelStr.value) ::
                parsed.provider == if listed[i].0 != "" then Some(listed[i].0) else None)
          && ((forall i: nat :: !ListsAt(listed, i, modelStr.value)) ==> parsed.provider.None?))
  }

  lemma BareStringsAreScanned(entries: Entries, listed: Entries, modelStr: Option<string>)
    ensures BareAnswer(entries, listed, modelStr, ParseWith(entries, listed, modelStr))
  {
    if modelStr.Some? && modelStr.value != "" && Unprefixed(entries, modelStr.value) {
      NoPrefix(entries, modelStr.value);
      var i := ListerAt(listed, modelStr.value);
      forall k: nat | FirstToList(listed, k, modelStr.value) && FirstToList(listed, i, modelStr.value) ensures k == i {
      }
    }
  }

  /** A prefixed string is cut behind the key, or else the alias, of the first provider that opens it. */
  lemma {:induction false} PrefixedStringsAreCut(entries: Entries, i: nat, s: string)
    requires Opens(entries, i, s) && forall k: nat | k < i :: !Opens(entries, k, s)
    ensures
      var (key, alias) := (entries[i].0, entries[i].1.alias);
      var read := ByPrefix(entries, s);
      if StartsWith(s, key + "/") then read == Some(Parsed(Some(key), Some(s[|key| + 1..])))
      else alias.Some? && |alias.value| < |s| && read == Some(Parsed(Some(key), Some(s[|alias.value| + 1..])))
  {
    if i > 0 {
      assert !Opens(entries, 0, s);
      forall k: nat | k < |entries| - 1 ensures Opens(entries[1..], k, s) == Opens(entries, k + 1, s) {
      }
      PrefixedStringsAreCut(entries[1..], i - 1, s);
    }
  }

  /** The index says of every id exactly what a scan would. */
  ghost predicate Indexes(index: map<string, string>, entries: Entries) {
    forall id :: FirstLister(entries, id) == if id in index then Some(index[id]) else None
  }

  lemma {:induction false} ListerOfMore(entries: Entries, last: (string, Provider), id: string)
    ensures FirstLister(entries + [last], id) ==
      if FirstLister(entries, id).Some? then FirstLister(entries, id)
      else if Lists(last.1, id) then Some(last.0) else None
  {
    if entries == [] {
      assert [last][1..] == [];
    } else {
      assert (entries + [last])[1..] == entries[1..] + [last];
      ListerOfMore(entries[1..], last, id);
    }
  }

  /** First-wins insertion of every model of every provider. */
  method BuildIndex(entries: Entries) returns (index: map<string, string>)
    ensures Indexes(index, entries)
  {
    index := map[];
    for i := 0 to |entries|
      invariant Indexes(index, entries[..i])
    {
      var (providerId, config) := entries[i];
      ghost var before := index;
      for j := 0 to |config.models|
        invariant forall id :: id in index <==> id in before || exists k | 0 <= k < j :: config.models[k].id == id
        invariant forall id | id in index :: index[id] == if id in before then before[id] else providerId
      {
        var id := config.models[j].id;
        if id !in index {
          index := index[id := providerId];
        }
      }
      assert entries[..i + 1] == entries[..i] + [entries[i]];
      forall id ensures FirstLister(entries[..i + 1], id) == if id in index then Some(index[id]) else None {
        ListerOfMore(entries[..i], entries[i], id);
      }
    }
    assert entries[..|entries|] == entries;
  }

  /** A registry object; the cache below is keyed by its identity, not by its contents. */
  class Registry {
    var entries: Entries

    constructor (entries: Entries)
      ensures this.entries == entries
    {
      this.entries := entries;
    }
  }

  class IndexCache {
    var cache: map<Registry, map<string, string>>
    /** The contents each cached registry had when its index was built. */
    ghost var indexed: map<Registry, Entries>

    ghost predicate Valid()
      reads this
    {
      indexed.Keys == cache.Keys && forall r | r in cache :: Indexes(cache[r], indexed[r])
    }

    constructor ()
      ensures Valid() && cache == map[]
    {
      cache, indexed := map[], map[];
    }

    method GetIndex(registry: Registry) returns (index: map<string, string>)
      requires Valid()
      modifies this
      ensures Valid()
      ensures indexed == if registry in old(indexed) then old(indexed) else old(indexed)[registry := registry.entries]
      ensures index == cache[registry]
    {
      if registry in cache {
        index := cache[registry];
      } else {
        index := BuildIndex(registry.entries);
        cache, indexed := cache[registry := index], indexed[registry := registry.entries];
      }
    }

    /**
     * Whatever was parsed before, against whatever registries, the bare-model answer is that of
     * a scan of the contents at indexing time; while the registry is unchanged, it is the scan's.
     */
    method ParseModel(modelStr: Option<string>, registry: Registry) returns (parsed: Parsed)
      requires Valid()
      modifies this
      ensures Valid()
      ensures forall r | r in old(indexed) :: r in indexed && indexed[r] == old(indexed)[r]
      ensures forall r | r in indexed && r !in old(indexed) :: r == registry && indexed[r] == registry.entries
      ensures var known := if registry in old(indexed) then old(indexed)[registry] else registry.entries;
        && parsed == ParseWith(registry.entries, known, modelStr)
        && (known == registry.entries ==> parsed == Parse(registry.entries, modelStr))
        && BareAnswer(registry.entries, known, modelStr, parsed)
    {
      BareStringsAreScanned(registry.entries,
                            if registry in indexed then indexed[registry] else registry.entries, modelStr);
      if modelStr.None? || modelStr.value == "" {
        return Parsed(None, None);
      }
      var s := modelStr.value;
      for i := 0 to |registry.entries|
        invariant ByPrefix(registry.entries, s) == ByPrefix(registry.entries[i..], s)
      {
        var (providerId, config) := registry.entries[i];
        if StartsWith(s, providerId + "/") {
          return Parsed(Some(providerId), Some(s[|providerId| + 1..]));
        }
        if UsableAlias(config) && StartsWith(s, config.alias.value + "/") {
          return Parsed(Some(providerId), Some(s[|config.alias.value| + 1..]));
        }
      }
      var index := GetIndex(registry);
      if s in index && index[s] != "" {
        return Parsed(Some(index[s]), Some(s));
      }
      return Parsed(None, Some(s));
    }
  }

  // -------------------------------------------------------------------- catalog ids

  /** The prefixes a provider's models are listed under: its key and its alias, unless empty. */
  function Prefixes(id: string, p: Provider): seq<string> {
    (if id != "" then [id] else []) + (if UsableAlias(p) then [p.alias.value] else [])
  }

  function UnderPrefixes(prefixes: seq<string>, model: Model, providerId: string): seq<CatalogEntry> {
    if prefixes == [] then []
    else
      var first := CatalogEntry(prefixes[0] + "/" + model.id, model.name, providerId);
      [first] + UnderPrefixes(prefixes[1..], model, providerId)
  }

  function OfModels(providerId: string, prefixes: seq<string>, models: seq<Model>): seq<CatalogEntry> {
    if models == [] then []
    else UnderPrefixes(prefixes, models[0], providerId) + OfModels(providerId, prefixes, models[1..])
  }

  /** The whole catalog: provider by provider, model by model, each under its prefixes. */
  function AllModels(entries: Entries): seq<CatalogEntry> {
    if entries == [] then []
    else
      var (id, p) := entries[0];
      OfModels(id, Prefixes(id, p), p.models) + AllModels(entries[1..])
  }

  method GetAllModels(entries: Entries) returns (all: seq<CatalogEntry>)
    ensures all == AllModels(entries)
  {
    all := [];
    for i := 0 to |entries|
      invariant all + AllModels(entries[i..]) == AllModels(entries)
    {
      var (providerId, config) := entries[i];
      var prefixes := Prefixes(providerId, config);
      ghost var before := all;
      for j := 0 to |config.models|
        invariant all + OfModels(providerId, prefixes, config.models[j..]) ==
                  before + OfModels(providerId, prefixes, config.models)
      {
        var model := config.models[j];
        ghost var beforeModel := all;
        for k := 0 to |prefixes|
          invariant all + UnderPrefixes(prefixes[k..], model, providerId) ==
                    beforeModel + UnderPrefixes(prefixes, model, providerId)
        {
          var entry := CatalogEntry(prefixes[k] + "/" + model.id, model.name, providerId);
          Shift(all, [entry], UnderPrefixes(prefixes[k + 1..], model, providerId));
          all := all + [entry];
        }
        assert all == beforeModel + UnderPrefixes(prefixes, model, providerId);
        Shift(beforeModel, UnderPrefixes(prefixes, model, providerId),
              OfModels(providerId, prefixes, config.models[j + 1..]));
      }
      assert all == before + OfModels(providerId, prefixes, config.models);
      Shift(before, OfModels(providerId, prefixes, config.models), AllModels(entries[i + 1..]));
    }
  }

  lemma Shift<T>(done: seq<T>, next: seq<T>, rest: seq<T>)
    ensures done + (next + rest) == done + next + rest
  {
  }

  /** The catalog of two registries, one behind the other, is their catalogs in that order. */
  lemma {:induction false} CatalogOfConcat(a: Entries, b: Entries)
    ensures AllModels(a + b) == AllModels(a) + AllModels(b)
  {
    if a == [] {
      assert a + b == b;
    } else {
      assert (a + b)[0] == a[0] && (a + b)[1..] == a[1..] + b;
      CatalogOfConcat(a[1..], b);
      var (id, p) := a[0];
      Shift(OfModels(id, Prefixes(id, p), p.models), AllModels(a[1..]), AllModels(b));
    }
  }

  lemma {:induction false} OfModelsConcat(id: string, prefixes: seq<string>, a: seq<Model>, b: seq<Model>)
    ensures OfModels(id, prefixes, a + b) == OfModels(id, prefixes, a) + OfModels(id, prefixes, b)
  {
    if a == [] {
      assert a + b == b;
    } else {
      assert (a + b)[0] == a[0] && (a + b)[1..] == a[1..] + b;
      OfModelsConcat(id, prefixes, a[1..], b);
      Shift(UnderPrefixes(prefixes, a[0], id), OfModels(id, prefixes, a[1..]), OfModels(id, prefixes, b));
    }
  }

  lemma CatalogOfOne(id: string, p: Provider)
    ensures AllModels([(id, p)]) == OfModels(id, Prefixes(id, p), p.models)
  {
    assert [(id, p)][1..] == [];
  }

  /** A provider's models are listed in their order. */
  lemma CatalogOfModels(id: string, alias: Option<string>, a: seq<Model>, b: seq<Model>)
    ensures AllModels([(id, Provider(alias, a + b))]) ==
              AllModels([(id, Provider(alias, a))]) + AllModels([(id, Provider(alias, b))])
  {
    CatalogOfOne(id, Provider(alias, a + b));
    CatalogOfOne(id, Provider(alias, a));
    CatalogOfOne(id, Provider(alias, b));
    OfModelsConcat(id, Prefixes(id, Provider(alias, a)), a, b);
  }

  /**
   * One model is listed under the key and then under the alias, each unless it is empty, and
   * always with the key as provider.
   */
  lemma CatalogOfOneModel(id: string, alias: Option<string>, model: Model)
    ensures AllModels([(id, Provider(alias, [model]))]) ==
              (if id != "" then [CatalogEntry(id + "/" + model.id, model.name, id)] else [])
              + (if alias.Some? && alias.value != "" then [CatalogEntry(alias.value + "/" + model.id, model.name, id)]
                 else [])
  {
    var p := Provider(alias, [model]);
    CatalogOfOne(id, p);
    assert [model][1..] == [];
    var prefixes := Prefixes(id, p);
    assert OfModels(id, prefixes, [model]) == UnderPrefixes(prefixes, model, id);
    if |prefixes| == 2 {
      assert prefixes == [id, alias.value] && prefixes[1..] == [alias.value] && [alias.value][1..] == [];
      assert UnderPrefixes([alias.value], model, id) == [CatalogEntry(alias.value + "/" + model.id, model.name, id)];
    } else if |prefixes| == 1 {
      assert prefixes[1..] == [];
    }
  }

  /** `e` is model `j` of provider `i` under one of its prefixes. */
  ghost predicate IsListing(entries: Entries, e: CatalogEntry, i: nat, j: nat, prefix: string) {
    && i < |entries| && j < |entries[i].1.models|
    && prefix in Prefixes(entries[i].0, entries[i].1)
    && e == CatalogEntry(prefix + "/" + entries[i].1.models[j].id, entries[i].1.models[j].name, entries[i].0)
  }

  lemma {:induction false} PrefixOf(prefixes: seq<string>, model: Model, providerId: string, e: CatalogEntry)
    returns (prefix: string)
    requires e in UnderPrefixes(prefixes, model, providerId)
    ensures prefix in prefixes && e == CatalogEntry(prefix + "/" + model.id, model.name, providerId)
  {
    if e == CatalogEntry(prefixes[0] + "/" + model.id, model.name, providerId) {
      prefix := prefixes[0];
    } else {
      prefix := PrefixOf(prefixes[1..], model, providerId, e);
    }
  }

  lemma {:induction false} ModelOf(providerId: string, prefixes: seq<string>, models: seq<Model>, e: CatalogEntry)
    returns (j: nat, prefix: string)
    requires e in OfModels(providerId, prefixes, models)
    ensures j < |models| && prefix in prefixes &&
              e == CatalogEntry(prefix + "/" + models[j].id, models[j].name, providerId)
  {
    if e in UnderPrefixes(prefixes, models[0], providerId) {
      j := 0;
      prefix := PrefixOf(prefixes, models[0], providerId, e);
    } else {
      j, prefix := ModelOf(providerId, prefixes, models[1..], e);
      j := j + 1;
    }
  }

  /** Every catalog entry is a model some provider lists, under that provider's key or alias. */
  lemma {:induction false} ListingOf(entries: Entries, e: CatalogEntry) returns (i: nat, j: nat, prefix: string)
    requires e in AllModels(entries)
    ensures IsListing(entries, e, i, j, prefix)
  {
    var (id, p) := entries[0];
    if e in OfModels(id, Prefixes(id, p), p.models) {
      i := 0;
      j, prefix := ModelOf(id, Prefixes(id, p), p.models, e);
    } else {
      i, j, prefix := ListingOf(entries[1..], e);
      i := i + 1;
    }
  }

  /**
   * `q` followed by a slash is looked for before `prefix` of provider `i`: an earlier provider's
   * key or alias, or its own key.
   */
  ghost predicate TestedBefore(entries: Entries, i: nat, prefix: string, q: string)
    requires i < |entries|
  {
    || (exists k | 0 <= k < i :: q == entries[k].0 || (UsableAlias(entries[k].1) && q == entries[k].1.alias.value))
    || (q == entries[i].0 && q != prefix)
  }

  /** Nothing looked for before `prefix` of provider `i` starts the string. */
  ghost predicate FirstToStart(entries: Entries, i: nat, prefix: string, s: string)
    requires i < |entries|
  {
    forall q | TestedBefore(entries, i, prefix, q) :: !StartsWith(s, q + "/")
  }

  lemma FirstToStartTail(entries: Entries, i: nat, prefix: string, s: string)
    requires 0 < i < |entries|
    ensures FirstToStart(entries, i, prefix, s) <==>
              && !StartsWith(s, entries[0].0 + "/")
              && !(UsableAlias(entries[0].1) && StartsWith(s, entries[0].1.alias.value + "/"))
              && FirstToStart(entries[1..], i - 1, prefix, s)
  {
    var (id, p) := entries[0];
    forall q
      ensures TestedBefore(entries, i, prefix, q) <==>
                q == id || (UsableAlias(p) && q == p.alias.value) || TestedBefore(entries[1..], i - 1, prefix, q)
    {
      assert forall k | 0 < k < i :: entries[k] == entries[1..][k - 1];
      assert forall k | 0 <= k < i - 1 :: entries[1..][k] == entries[k + 1];
    }
  }

  lemma CutAt(prefix: string, q: string, model: string)
    requires StartsWith(prefix + "/" + model, q + "/")
    ensures (prefix + "/" + model)[|q| + 1..] == model <==> q == prefix
  {
    var s := prefix + "/" + model;
    assert s[|prefix| + 1..] == model;
    assert q == (q + "/")[..|q|] == s[..|q|];
    assert prefix == s[..|prefix|];
  }

  /**
   * A prefixed id is read as its own provider and model exactly when no key or alias that is
   * looked for earlier, followed by a slash, starts it.
   */
  lemma {:induction false} PrefixFindsIff(entries: Entries, i: nat, prefix: string, model: string)
    requires KeysDistinct(entries)
    requires i < |entries| && prefix in Prefixes(entries[i].0, entries[i].1)
    ensures ByPrefix(entries, prefix + "/" + model) == Some(Parsed(Some(entries[i].0), Some(model)))
       <==> FirstToStart(entries, i, prefix, prefix + "/" + model)
  {
    var (id, p) := entries[0];
    var s := prefix + "/" + model;
    assert StartsWith(s, prefix + "/");
    if StartsWith(s, id + "/") {
      CutAt(prefix, id, model);
    }
    if UsableAlias(p) && StartsWith(s, p.alias.value + "/") {
      CutAt(prefix, p.alias.value, model);
    }
    if i == 0 {
      FirstIsFirst(entries, prefix, s);
    } else {
      FirstToStartTail(entries, i, prefix, s);
      PrefixFindsIff(entries[1..], i - 1, prefix, model);
    }
  }

  lemma FirstIsFirst(entries: Entries, prefix: string, s: string)
    requires entries != []
    ensures FirstToStart(entries, 0, prefix, s) <==> entries[0].0 == prefix || !StartsWith(s, entries[0].0 + "/")
  {
    assert TestedBefore(entries, 0, prefix, entries[0].0) <==> entries[0].0 != prefix;
  }

  /** No two providers answer to the same prefix, and no prefix contains a slash. */
  ghost predicate PrefixesDistinct(entries: Entries) {
    && KeysDistinct(entries)
    && (forall i | 0 <= i < |entries| ::
          '/' !in entries[i].0 && (UsableAlias(entries[i].1) ==> '/' !in entries[i].1.alias.value))
    && (forall i, j | 0 <= i < j < |entries| ::
          forall p | p in Prefixes(entries[i].0, entries[i].1) :: p !in Prefixes(entries[j].0, entries[j].1))
  }

  /** With distinct slash-free prefixes, a prefixed string is cut at that provider, whatever follows. */
  lemma PrefixFinds(entries: Entries, i: nat, prefix: string, model: string)
    requires PrefixesDistinct(entries)
    requires i < |entries| && prefix in Prefixes(entries[i].0, entries[i].1)
    ensures ByPrefix(entries, prefix + "/" + model) == Some(Parsed(Some(entries[i].0), Some(model)))
  {
    var s := prefix + "/" + model;
    forall q | TestedBefore(entries, i, prefix, q)
      ensures !StartsWith(s, q + "/")
    {
      if StartsWith(s, q + "/") {
        PrefixBeforeSeparator(prefix, q, '/', model);
      }
    }
    PrefixFindsIff(entries, i, prefix, model);
  }

  /**
   * With slash-free and distinct prefixes, every id the catalog lists, by key or by alias,
   * parses back to its provider and its model.
   */
  lemma CatalogIdsParseBack(entries: Entries, e: CatalogEntry) returns (i: nat, j: nat, prefix: string)
    requires PrefixesDistinct(entries)
    requires e in AllModels(entries)
    ensures IsListing(entries, e, i, j, prefix)
    ensures Parse(entries, Some(e.id)) == Parsed(Some(e.provider), Some(entries[i].1.models[j].id))
  {
    i, j, prefix := ListingOf(entries, e);
    PrefixFinds(entries, i, prefix, entries[i].1.models[j].id);
  }

  lemma {:induction false} PrefixStarts(entries: Entries, i: nat, prefix: string, model: string)
    requires i < |entries| && prefix in Prefixes(entries[i].0, entries[i].1)
    ensures ByPrefix(entries, prefix + "/" + model).Some?
  {
    assert StartsWith(prefix + "/" + model, prefix + "/");
    if i > 0 {
      PrefixStarts(entries[1..], i - 1, prefix, model);
    }
  }

  /**
   * In any registry with distinct keys: a listing parses back to its provider and model
   * exactly when no key or alias that is looked for earlier, followed by a slash, starts its id.
   */
  lemma ListingParsesBackIff(entries: Entries, e: CatalogEntry, i: nat, j: nat, prefix: string)
    requires KeysDistinct(entries) && IsListing(entries, e, i, j, prefix)
    ensures Parse(entries, Some(e.id)) == Parsed(Some(e.provider), Some(entries[i].1.models[j].id))
       <==> FirstToStart(entries, i, prefix, e.id)
  {
    PrefixStarts(entries, i, prefix, entries[i].1.models[j].id);
    PrefixFindsIff(entries, i, prefix, entries[i].1.models[j].id);
  }

  /** A registry in which it does not: a key that extends an earlier one by a slash is never reached. */
  lemma SlashedPrefixLosesItsModels()
    ensures
      var entries := [("a", Provider(None, [])), ("a/b", Provider(None, [Model("m", "M")]))];
      && CatalogEntry("a/b/m", "M", "a/b") in AllModels(entries)
      && Parse(entries, Some("a/b/m")) == Parsed(Some("a"), Some("b/m"))
  {
    var entries := [("a", Provider(None, [])), ("a/b", Provider(None, [Model("m", "M")]))];
    var model, p := Model("m", "M"), Provider(None, [Model("m", "M")]);
    assert entries[1..] == [("a/b", p)] && entries[1..][1..] == [] && [model][1..] == [] && ["a/b"][1..] == [];
    assert "a/b" + "/" + "m" == "a/b/m";
    assert UnderPrefixes(["a/b"], model, "a/b") == [CatalogEntry("a/b/m", "M", "a/b")];
    assert Prefixes("a/b", p) == ["a/b"];
    assert OfModels("a/b", ["a/b"], [model]) == [CatalogEntry("a/b/m", "M", "a/b")];
    assert CatalogEntry("a/b/m", "M", "a/b") in AllModels(entries[1..]);
    assert "a/b/m"[2..] == "b/m";
  }
}
