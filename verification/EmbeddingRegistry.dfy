/** Parsing embedding model strings: model aliases first, then providers, then dynamic nodes. */
module EmbeddingRegistry {
  import opened ModelIds
  import opened Options
  import opened Text
  import opened ScopedModels

  /** Model aliases in table order; one with a slash matches whole strings only. */
  type ModelAliases = seq<(string, string)>

  function ApplyModelAliases(modelAliases: ModelAliases, s: string): string {
    if modelAliases == [] then s
    else
      var (name, canonical) := modelAliases[0];
      if s == name then canonical
      else if '/' !in name && EndsWith(s, "/" + name) then
        (if name == "" then "" else s[..|s| - |name|]) + canonical
      else ApplyModelAliases(modelAliases[1..], s)
  }

  /** What follows the last slash. */
  function LastSegment(s: string): (segment: string)
    ensures |segment| <= |s|
  {
    if '/' in s then LastSegment(s[1..]) else s
  }

  /** An alias speaks of a string that it equals, and, when it has no slash, of any string with it as last segment. */
  predicate Names(alias: string, s: string) {
    s == alias || ('/' !in alias && LastSegment(s) == alias)
  }

  /** Entry `k` is the first of the table whose alias speaks of the string. */
  ghost predicate Decides(modelAliases: ModelAliases, s: string, k: nat) {
    && k < |modelAliases| && Names(modelAliases[k].0, s)
    && forall j | 0 <= j < k :: !Names(modelAliases[j].0, s)
  }

  /** The first dynamic provider whose id, followed by a slash, starts the string. */
  function ByDynamicPrefix(dynamicIds: seq<string>, s: string): Option<Parsed> {
    if dynamicIds == [] then None
    else if StartsWith(s, dynamicIds[0] + "/") then Some(Parsed(Some(dynamicIds[0]), Some(s[|dynamicIds[0]| + 1..])))
    else ByDynamicPrefix(dynamicIds[1..], s)
  }

  function Parse(registry: Registry, aliases: Aliases, modelAliases: ModelAliases, dynamicIds: seq<string>,
                 modelStr: Option<string>): Parsed {
    if modelStr.None? || modelStr.value == "" then Parsed(None, None)
    else
      var s := ApplyModelAliases(modelAliases, modelStr.value);
      var slash := IndexOf(s, '/');
      if slash > 0 then
        var resolved := Resolve(aliases, s[..slash]);
        var prefixed := ByPrefix(registry, aliases, registry, s);
        var dynamic := ByDynamicPrefix(dynamicIds, s);
        if Find(registry, resolved).Some? then
          Parsed(Some(resolved), Some(Normalize(registry, aliases, resolved, s[slash + 1..])))
        else if prefixed.Some? then prefixed.value
        else if dynamic.Some? then dynamic.value
        else Parsed(Some(s[..slash]), Some(s[slash + 1..]))
      else Parsed(FirstLister(registry, s), Some(s))
  }

  lemma {:induction false} LastSegmentSplits(s: string)
    ensures '/' !in LastSegment(s) && s[|s| - |LastSegment(s)|..] == LastSegment(s)
    ensures '/' in s ==> |LastSegment(s)| < |s| && s[|s| - |LastSegment(s)| - 1] == '/'
  {
    if '/' in s {
      LastSegmentSplits(s[1..]);
    }
  }

  /** A slash-free alias is the last segment exactly when the string ends in it behind a slash, or is it. */
  lemma NamesMeansEnd(alias: string, s: string)
    ensures Names(alias, s) <==> s == alias || ('/' !in alias && EndsWith(s, "/" + alias))
  {
    LastSegmentSplits(s);
    var n := |LastSegment(s)|;
    if EndsWith(s, "/" + alias) {
      assert s[|s| - |alias| - 1] == ("/" + alias)[0];
    }
    if '/' in s {
      assert s[|s| - n - 1..] == "/" + LastSegment(s);
      if '/' !in alias && EndsWith(s, "/" + alias) {
        LongerHasSlash(s, alias, LastSegment(s));
        LongerHasSlash(s, LastSegment(s), alias);
      }
    }
  }

  /** Of two ends behind a slash, the longer contains the slash of the shorter; equally long ones are equal. */
  lemma LongerHasSlash(s: string, a: string, b: string)
    requires EndsWith(s, "/" + a) && EndsWith(s, "/" + b)
    ensures |a| < |b| ==> '/' in b
    ensures |a| == |b| ==> a == b
  {
    assert s[|s| - |a|..] == ("/" + a)[1..] == a && s[|s| - |b|..] == ("/" + b)[1..] == b;
    assert s[|s| - |a| - 1] == ("/" + a)[0];
    if |a| < |b| {
      assert b[|b| - |a| - 1] == '/';
    }
  }

  /**
   * The table, read from the top: the first alias that speaks of the string is replaced, and with
   * none the string is untouched.
   */
  lemma {:induction false} FirstAliasDecides(modelAliases: ModelAliases, s: string) returns (k: nat)
    ensures
      if k < |modelAliases| then
        var (alias, canonical) := modelAliases[k];
        && Decides(modelAliases, s, k)
        && ApplyModelAliases(modelAliases, s) ==
             if s == alias || alias == "" then canonical else s[..|s| - |alias|] + canonical
      else
        && (forall j | 0 <= j < |modelAliases| :: !Names(modelAliases[j].0, s))
        && ApplyModelAliases(modelAliases, s) == s
  {
    k := 0;
    if modelAliases != [] {
      NamesMeansEnd(modelAliases[0].0, s);
      if !Names(modelAliases[0].0, s) {
        k := FirstAliasDecides(modelAliases[1..], s);
        k := k + 1;
        assert forall j | 0 < j < |modelAliases| :: modelAliases[j] == modelAliases[1..][j - 1];
      }
    }
  }

  lemma OneDecides(modelAliases: ModelAliases, s: string, j: nat, k: nat)
    requires Decides(modelAliases, s, j) && Decides(modelAliases, s, k)
    ensures j == k
  {
  }

  /** The deciding entry, if there is one, stands for itself. */
  ghost predicate Untouched(modelAliases: ModelAliases, s: string) {
    forall k: nat | Decides(modelAliases, s, k) ::
      modelAliases[k].1 == if modelAliases[k].0 == "" then s else modelAliases[k].0
  }

  /** A string is left as it is exactly when no entry decides it, or the one that does stands for itself. */
  lemma UntouchedIff(modelAliases: ModelAliases, s: string)
    ensures ApplyModelAliases(modelAliases, s) == s <==> Untouched(modelAliases, s)
  {
    var k := FirstAliasDecides(modelAliases, s);
    if k < |modelAliases| {
      var (alias, canonical) := modelAliases[k];
      LastSegmentSplits(s);
      assert Decides(modelAliases, s, k);
      forall j: nat | Decides(modelAliases, s, j) ensures j == k {
        OneDecides(modelAliases, s, j, k);
      }
      if s != alias && alias != "" {
        var kept := s[..|s| - |alias|];
        assert s == kept + alias;
        assert kept + canonical == kept + alias <==> canonical == alias by {
          assert (kept + canonical)[|kept|..] == canonical && (kept + alias)[|kept|..] == alias;
        }
      }
    }
  }

  /** Where a slash-free alias decides, every provider's spelling of the model is rewritten behind its prefix. */
  lemma BareAliasUnderAnyProvider(modelAliases: ModelAliases, k: nat, prefix: string)
    requires k < |modelAliases| && modelAliases[k].0 != ""
    requires '/' !in modelAliases[k].0 && Decides(modelAliases, prefix + "/" + modelAliases[k].0, k)
    ensures ApplyModelAliases(modelAliases, prefix + "/" + modelAliases[k].0) == prefix + "/" + modelAliases[k].1
  {
    var alias := modelAliases[k].0;
    var s := prefix + "/" + alias;
    var first := FirstAliasDecides(modelAliases, s);
    OneDecides(modelAliases, s, first, k);
    assert s != alias by { assert s[|prefix|] == '/'; }
    assert s[..|s| - |alias|] == prefix + "/";
  }

  /** An alias with a slash decides nothing but itself. */
  lemma SlashedAliasIsExact(modelAliases: ModelAliases, k: nat, s: string)
    requires k < |modelAliases| && '/' in modelAliases[k].0 && Decides(modelAliases, s, k)
    ensures s == modelAliases[k].0 && ApplyModelAliases(modelAliases, s) == modelAliases[k].1
  {
    var first := FirstAliasDecides(modelAliases, s);
    OneDecides(modelAliases, s, first, k);
  }

  /** Dynamic provider `i` is the first whose id, followed by a slash, starts the string. */
  predicate FirstDynamic(dynamicIds: seq<string>, i: nat, s: string) {
    i < |dynamicIds| && StartsWith(s, dynamicIds[i] + "/")
    && forall k | 0 <= k < i :: !StartsWith(s, dynamicIds[k] + "/")
  }

  predicate NoDynamic(dynamicIds: seq<string>, s: string) {
    forall k | 0 <= k < |dynamicIds| :: !StartsWith(s, dynamicIds[k] + "/")
  }

  lemma {:induction false} ByFirstDynamic(dynamicIds: seq<string>, i: nat, s: string)
    requires FirstDynamic(dynamicIds, i, s)
    ensures ByDynamicPrefix(dynamicIds, s) == Some(Parsed(Some(dynamicIds[i]), Some(s[|dynamicIds[i]| + 1..])))
  {
    if i > 0 {
      assert !StartsWith(s, dynamicIds[0] + "/");
      assert FirstDynamic(dynamicIds[1..], i - 1, s);
      ByFirstDynamic(dynamicIds[1..], i - 1, s);
    }
  }

  lemma {:induction false} ByNoDynamic(dynamicIds: seq<string>, s: string)
    requires NoDynamic(dynamicIds, s)
    ensures ByDynamicPrefix(dynamicIds, s).None?
  {
    if dynamicIds != [] {
      ByNoDynamic(dynamicIds[1..], s);
    }
  }

  /** After the model aliases, a string whose first part names a provider, itself or by alias, is that provider's. */
  lemma KnownProviderComesFirst(registry: Registry, aliases: Aliases, modelAliases: ModelAliases,
                                dynamicIds: seq<string>, modelStr: string, a: string, rest: string, key: string)
    requires modelStr != "" && ApplyModelAliases(modelAliases, modelStr) == a + "/" + rest
    requires a != "" && '/' !in a && StandsFor(aliases, a, key) && IsKey(registry, key)
    ensures Parse(registry, aliases, modelAliases, dynamicIds, Some(modelStr)) ==
              Parsed(Some(key), Some(Normalize(registry, aliases, key, rest)))
  {
    FirstSlash(a, rest);
    FindIff(registry, key);
  }

  /**
   * Failing that, a string with a part before a slash goes to the first registered key that
   * starts it, else to the first dynamic provider that does, else to that part itself.
   */
  lemma PrefixedStrings(registry: Registry, aliases: Aliases, modelAliases: ModelAliases, dynamicIds: seq<string>,
                        modelStr: string, a: string, rest: string)
    requires modelStr != "" && ApplyModelAliases(modelAliases, modelStr) == a + "/" + rest && a != "" && '/' !in a
    requires NoKnownProvider(registry, aliases, a + "/" + rest)
    ensures
      var (s, parsed) := (a + "/" + rest, Parse(registry, aliases, modelAliases, dynamicIds, Some(modelStr)));
      && (forall i: nat | FirstPrefix(registry, i, s) ::
            var key := registry[i].0;
            parsed == Parsed(Some(key), Some(Normalize(registry, aliases, key, s[|key| + 1..]))))
      && (NoPrefix(registry, s) ==>
            && (forall i: nat | FirstDynamic(dynamicIds, i, s) ::
                  parsed == Parsed(Some(dynamicIds[i]), Some(s[|dynamicIds[i]| + 1..])))
            && (NoDynamic(dynamicIds, s) ==> parsed == Parsed(Some(a), Some(rest))))
  {
    var s := a + "/" + rest;
    FirstSlash(a, rest);
    UnknownFirst(registry, aliases, s);
    forall i: nat | FirstPrefix(registry, i, s) {
      ByFirstPrefix(registry, aliases, registry, i, s);
    }
    if NoPrefix(registry, s) {
      ByNoPrefix(registry, aliases, registry, s);
      forall i: nat | FirstDynamic(dynamicIds, i, s) {
        ByFirstDynamic(dynamicIds, i, s);
      }
      if NoDynamic(dynamicIds, s) {
        ByNoDynamic(dynamicIds, s);
      }
    }
  }

  /** A string without a part before a slash is looked up as a whole, and nothing is read as nothing. */
  lemma BareStrings(registry: Registry, aliases: Aliases, modelAliases: ModelAliases, dynamicIds: seq<string>,
                    modelStr: string)
    requires modelStr != ""
    requires var s := ApplyModelAliases(modelAliases, modelStr); '/' !in s || s[0] == '/'
    ensures BareAnswer(registry, ApplyModelAliases(modelAliases, modelStr),
                       Parse(registry, aliases, modelAliases, dynamicIds, Some(modelStr)))
    ensures Parse(registry, aliases, modelAliases, dynamicIds, None) == Parsed(None, None)
    ensures Parse(registry, aliases, modelAliases, dynamicIds, Some("")) == Parsed(None, None)
  {
    var s := ApplyModelAliases(modelAliases, modelStr);
    FirstListerIs(registry, s);
    LateSlash(s);
  }

  lemma LateSlash(s: string)
    ensures IndexOf(s, '/') > 0 ==> s[0] != '/'
  {
    var i := IndexOf(s, '/');
    if i > 0 {
      assert s[..i][0] == s[0] && s[..i][0] in s[..i];
    }
  }

  /**
   * A listed model's scoped id, when no model alias rewrites it, parses back to provider and
   * model exactly when nothing shadows it, whatever dynamic providers there are.
   */
  lemma ScopedIdRoundTrip(registry: Registry, aliases: Aliases, modelAliases: ModelAliases, dynamicIds: seq<string>,
                          providerId: string, models: seq<Model>, modelId: string)
    requires PlainKey(aliases, providerId)
    requires Find(registry, providerId) == Some(models) && Lists(models, modelId)
    requires Untouched(modelAliases, Scoped(providerId, modelId))
    ensures Parse(registry, aliases, modelAliases, dynamicIds, Some(Scoped(providerId, modelId)))
              == Parsed(Some(providerId), Some(modelId))
       <==> !Shadowed(providerId, models, modelId)
  {
    UntouchedIff(modelAliases, Scoped(providerId, modelId));
    ScopedParts(providerId, modelId);
    NormalizeScoped(registry, aliases, providerId, models, modelId);
  }

  /** Every id of the embedding catalog that no model alias rewrites parses back to its provider and model. */
  lemma CatalogRoundTrip(registry: Registry, aliases: Aliases, modelAliases: ModelAliases, dynamicIds: seq<string>,
                         e: CatalogEntry) returns (i: nat, j: nat)
    requires KeysDistinct(registry)
    requires forall k | 0 <= k < |registry| :: PlainKey(aliases, registry[k].0)
    requires forall k, l | 0 <= k < |registry| && 0 <= l < |registry[k].1| ::
      !Shadowed(registry[k].0, registry[k].1, registry[k].1[l].id)
    requires e in AllModels(registry) && Untouched(modelAliases, e.id)
    ensures i < |registry| && j < |registry[i].1|
    ensures e == CatalogEntry(Scoped(registry[i].0, registry[i].1[j].id), registry[i].1[j].name, registry[i].0)
    ensures Parse(registry, aliases, modelAliases, dynamicIds, Some(e.id))
         == Parsed(Some(registry[i].0), Some(registry[i].1[j].id))
  {
    i, j := ListingOf(registry, e);
    FindAt(registry, i);
    ScopedIdRoundTrip(registry, aliases, modelAliases, dynamicIds, registry[i].0, registry[i].1, registry[i].1[j].id);
  }
}
