/**
 * The free-tier figures read off the catalog entries themselves: what one more entry changes,
 * field by field, starting from the empty catalog. Together with the empty catalog this fixes
 * every figure.
 */
module FreeModelTotals {
  import opened Options
  import opened FreeModelCatalog

  /** An entry that counts on its own: it names no pool. */
  predicate Unpooled(m: Budget) {
    m.poolKey.None? || m.poolKey == Some("")
  }

  ghost predicate Rival(models: seq<Budget>, m: Budget, counts: Budget -> bool, i: nat) {
    i < |models| && counts(models[i]) && models[i].poolKey == m.poolKey
  }

  /**
   * `best` is the largest number of tokens that a counted entry with the same pool key offers,
   * and zero when none offers more.
   */
  ghost predicate BestRival(models: seq<Budget>, m: Budget, pick: Budget -> int, counts: Budget -> bool, best: int) {
    && best >= 0
    && (forall i: nat | Rival(models, m, counts, i) :: pick(models[i]) <= best)
    && (best == 0 || exists i: nat :: Rival(models, m, counts, i) && pick(models[i]) == best)
  }

  /** What an entry adds to a figure it counts for, when `best` is what its pool already offers. */
  function Gain(m: Budget, tokens: int, best: int): int {
    if Unpooled(m) then tokens else if tokens > best then tokens - best else 0
  }

  ghost function Figure(models: seq<Budget>, pick: Budget -> int, counts: Budget -> bool): int {
    DedupedSum(Contributions(models, pick, counts))
  }

  lemma {:induction false} PoolMaxIsBest(models: seq<Budget>, m: Budget, pick: Budget -> int, counts: Budget -> bool)
    requires !Unpooled(m)
    ensures BestRival(models, m, pick, counts, PoolMax(Contributions(models, pick, counts), m.poolKey.value))
  {
    if models != [] {
      var rest := models[1..];
      PoolMaxIsBest(rest, m, pick, counts);
      assert models == [models[0]] + rest;
      ContributionsCons(models[0], rest, pick, counts, m.poolKey.value);
      var later := PoolMax(Contributions(rest, pick, counts), m.poolKey.value);
      var best := PoolMax(Contributions(models, pick, counts), m.poolKey.value);
      forall i: nat | Rival(models, m, counts, i) ensures pick(models[i]) <= best {
        if i > 0 {
          assert Rival(rest, m, counts, i - 1);
        }
      }
      if best != 0 {
        if best == later {
          var i: nat :| Rival(rest, m, counts, i) && pick(rest[i]) == best;
          assert Rival(models, m, counts, i + 1);
        } else {
          assert Rival(models, m, counts, 0);
        }
      }
    }
  }

  lemma BestIsUnique(models: seq<Budget>, m: Budget, pick: Budget -> int, counts: Budget -> bool, a: int, b: int)
    requires BestRival(models, m, pick, counts, a) && BestRival(models, m, pick, counts, b)
    ensures a == b
  {
  }

  /**
   * One more entry raises a figure it counts for by its tokens when it names no pool, and else
   * by what it offers over the best entry of the same pool key.
   */
  lemma FigureOfOneMore(models: seq<Budget>, m: Budget, pick: Budget -> int, counts: Budget -> bool, best: int)
    requires !Unpooled(m) ==> BestRival(models, m, pick, counts, best)
    ensures Figure(models + [m], pick, counts) ==
              Figure(models, pick, counts) + if counts(m) then Gain(m, pick(m), best) else 0
  {
    assert (models + [m])[..|models| + 1] == models + [m] && (models + [m])[..|models|] == models;
    OneMoreModel(models + [m], |models|, pick, counts);
    if counts(m) {
      MarginalContribution(Contributions(models, pick, counts), Contribution(Pool(m), pick(m)));
      if !Unpooled(m) {
        PoolMaxIsBest(models, m, pick, counts);
        BestIsUnique(models, m, pick, counts, best, PoolMax(Contributions(models, pick, counts), m.poolKey.value));
      }
    }
  }

  predicate SteadyRegime(m: Budget) {
    m.freeType == RecurringDaily || m.freeType == RecurringMonthly || m.freeType == Keyless
  }

  lemma Regimes(m: Budget)
    ensures IsSteady(m) <==> SteadyRegime(m)
    ensures IsRecurringCredit(m) <==> m.freeType == RecurringCredit
    ensures IsOneTimeCredit(m) <==> m.freeType == OneTimeInitial
    ensures IsUncapped(m) <==> m.freeType == RecurringUncapped
  {
    BucketMembers();
  }

  /** What the catalog contains after the switch and the terms filter: each entry as often as before, or not at all. */
  lemma {:induction false} FilterKeeps(entries: seq<Budget>, excludeAvoid: bool)
    ensures forall m :: multiset(Filter(entries, excludeAvoid))[m] ==
              if m.enabled && !(excludeAvoid && m.tos == TosAvoid) then multiset(entries)[m] else 0
  {
    if entries != [] {
      assert entries == [entries[0]] + entries[1..];
      FilterKeeps(entries[1..], excludeAvoid);
      FilterCons(entries[0], entries[1..], excludeAvoid);
    }
  }

  /** The non-empty pool keys of the steady entries. */
  function SteadyKeys(models: seq<Budget>): set<string> {
    set m | m in models && SteadyRegime(m) && m.poolKey.Some? && m.poolKey.value != "" :: m.poolKey.value
  }

  lemma KeysAreLivePools(models: seq<Budget>)
    ensures LivePools(models) == SteadyKeys(models)
  {
    forall m: Budget ensures IsSteady(m) <==> SteadyRegime(m) {
      Regimes(m);
    }
    assert forall m: Budget :: Pool(m).Some? <==> m.poolKey.Some? && m.poolKey.value != "";
    forall p ensures p in LivePools(models) <==> p in SteadyKeys(models) {
      if p in LivePools(models) {
        var m :| m in models && IsSteady(m) && Pool(m).Some? && Pool(m).value == p;
        assert m in models && SteadyRegime(m) && m.poolKey == Some(p);
      }
      if p in SteadyKeys(models) {
        var m :| m in models && SteadyRegime(m) && m.poolKey.Some? && m.poolKey.value != "" && m.poolKey.value == p;
        assert m in models && IsSteady(m) && Pool(m) == Some(p);
      }
    }
  }

  /** The boosts of these pool keys, and no others. */
  function BoostsOf(keys: set<string>, boosts: map<string, int>): map<string, int> {
    map p | p in boosts && p in keys :: boosts[p]
  }

  /**
   * The pool count is the number of distinct pool keys of steady entries, and the boost the sum
   * of the boosts of those keys.
   */
  lemma PoolsAndBoost(models: seq<Budget>, boosts: map<string, int>)
    ensures TotalsOf(models, boosts).poolCount == |SteadyKeys(models)|
    ensures TotalsOf(models, boosts).boost == SumValues(BoostsOf(SteadyKeys(models), boosts))
  {
    KeysAreLivePools(models);
    assert LiveBoosts(models, boosts) == BoostsOf(SteadyKeys(models), boosts);
  }

  lemma FigureOfNone(pick: Budget -> int, counts: Budget -> bool)
    ensures Figure([], pick, counts) == 0
  {
    assert Contributions([], pick, counts) == [];
    assert Pools([]) == {};
    assert PoolMaxima([]) == map[];
  }

  lemma TotalsOfNone(models: seq<Budget>, boosts: map<string, int>)
    requires |models| == 0
    ensures TotalsOf(models, boosts) == Totals(0, 0, 0, 0, {}, 0, 0)
  {
  }

  /** How the three sums change with one more entry, by its regime. */
  lemma SumsOfOneMore(models: seq<Budget>, m: Budget, boosts: map<string, int>, best: int)
    requires !Unpooled(m) && SteadyRegime(m) ==> BestRival(models, m, MonthlyTokens, IsSteady, best)
    requires !Unpooled(m) && m.freeType == RecurringCredit ==>
              BestRival(models, m, CreditTokens, IsRecurringCredit, best)
    requires !Unpooled(m) && m.freeType == OneTimeInitial ==> BestRival(models, m, CreditTokens, IsOneTimeCredit, best)
    ensures
      var (t, u) := (TotalsOf(models, boosts), TotalsOf(models + [m], boosts));
      && u.steady - t.steady == (if SteadyRegime(m) then Gain(m, m.monthlyTokens, best) else 0)
      && (u.steadyWithCredits - u.steady) - (t.steadyWithCredits - t.steady) ==
           (if m.freeType == RecurringCredit then Gain(m, m.creditTokens, best) else 0)
      && (u.firstMonth - u.steadyWithCredits) - (t.firstMonth - t.steadyWithCredits) ==
           (if m.freeType == OneTimeInitial then Gain(m, m.creditTokens, best) else 0)
  {
    Regimes(m);
    OneFigure(models, m, MonthlyTokens, IsSteady, best);
    OneFigure(models, m, CreditTokens, IsRecurringCredit, best);
    OneFigure(models, m, CreditTokens, IsOneTimeCredit, best);
  }

  lemma OneFigure(models: seq<Budget>, m: Budget, pick: Budget -> int, counts: Budget -> bool, best: int)
    requires !Unpooled(m) && counts(m) ==> BestRival(models, m, pick, counts, best)
    ensures Figure(models + [m], pick, counts) ==
              Figure(models, pick, counts) + if counts(m) then Gain(m, pick(m), best) else 0
  {
    if Unpooled(m) || counts(m) {
      FigureOfOneMore(models, m, pick, counts, best);
    } else {
      PoolMaxIsBest(models, m, pick, counts);
      FigureOfOneMore(models, m, pick, counts, PoolMax(Contributions(models, pick, counts), m.poolKey.value));
    }
  }

  /** The entry opens a pool: it is steady, names one, and no steady entry has named it before. */
  predicate OpensPool(models: seq<Budget>, m: Budget) {
    SteadyRegime(m) && !Unpooled(m) && forall x | x in models && SteadyRegime(x) :: x.poolKey != m.poolKey
  }

  lemma KeysOfOneMore(models: seq<Budget>, m: Budget)
    ensures SteadyKeys(models + [m]) == SteadyKeys(models) + if SteadyRegime(m) &&
              !Unpooled(m) then {m.poolKey.value} else {}
    ensures SteadyRegime(m) && !Unpooled(m) ==> (OpensPool(models, m) <==> m.poolKey.value !in SteadyKeys(models))
  {
    assert forall x :: x in models + [m] <==> x in models || x == m;
  }

  lemma BoostOfOneMoreKey(keys: set<string>, key: string, boosts: map<string, int>)
    requires key !in keys
    ensures SumValues(BoostsOf(keys + {key}, boosts)) ==
              SumValues(BoostsOf(keys, boosts)) + if key in boosts then boosts[key] else 0
  {
    var had, has := BoostsOf(keys, boosts), BoostsOf(keys + {key}, boosts);
    if key in boosts {
      assert has == had[key := boosts[key]];
      SumUpdate(had, key, boosts[key]);
    } else {
      assert has == had;
    }
  }

  lemma KeysAndBoost(models: seq<Budget>, m: Budget, boosts: map<string, int>)
    ensures |SteadyKeys(models + [m])| == |SteadyKeys(models)| + if OpensPool(models, m) then 1 else 0
    ensures SumValues(BoostsOf(SteadyKeys(models + [m]), boosts)) == SumValues(BoostsOf(SteadyKeys(models), boosts))
              + if OpensPool(models, m) && m.poolKey.value in boosts then boosts[m.poolKey.value] else 0
  {
    KeysOfOneMore(models, m);
    if OpensPool(models, m) {
      BoostOfOneMoreKey(SteadyKeys(models), m.poolKey.value, boosts);
    } else {
      assert SteadyKeys(models + [m]) == SteadyKeys(models);
    }
  }

  /** How the counts and the boost change with one more entry. */
  lemma CountsOfOneMore(models: seq<Budget>, m: Budget, boosts: map<string, int>)
    ensures TotalsOf(models + [m], boosts).modelCount == TotalsOf(models, boosts).modelCount + 1
    ensures TotalsOf(models + [m], boosts).uncappedProviders ==
              TotalsOf(models, boosts).uncappedProviders + if m.freeType == RecurringUncapped then {m.provider} else {}
    ensures TotalsOf(models + [m], boosts).poolCount ==
              TotalsOf(models, boosts).poolCount + if OpensPool(models, m) then 1 else 0
    ensures TotalsOf(models + [m], boosts).boost == TotalsOf(models, boosts).boost
              + if OpensPool(models, m) && m.poolKey.value in boosts then boosts[m.poolKey.value] else 0
  {
    PoolsAndBoost(models, boosts);
    PoolsAndBoost(models + [m], boosts);
    KeysAndBoost(models, m, boosts);
    UncappedOfOneMore(models, m);
  }

  lemma UncappedOfOneMore(models: seq<Budget>, m: Budget)
    ensures UncappedProviders(models + [m]) ==
              UncappedProviders(models) + if m.freeType == RecurringUncapped then {m.provider} else {}
  {
    Regimes(m);
    assert forall x :: x in models + [m] <==> x in models || x == m;
    forall p | p in UncappedProviders(models) ensures p in UncappedProviders(models + [m]) {
      var x :| x in models && IsUncapped(x) && x.provider == p;
      assert x in models + [m];
    }
  }

  /** Two entries of one pool count once, open one pool, and unlock its boost once. */
  lemma SharedPoolCountsOnce(a: Budget, b: Budget, boosts: map<string, int>)
    requires SteadyRegime(a) && SteadyRegime(b) && a.poolKey == b.poolKey && !Unpooled(a)
    requires 0 <= a.monthlyTokens && 0 <= b.monthlyTokens
    ensures TotalsOf([a, b], boosts).steady ==
              if a.monthlyTokens >= b.monthlyTokens then a.monthlyTokens else b.monthlyTokens
    ensures TotalsOf([a, b], boosts).poolCount == 1
    ensures TotalsOf([a, b], boosts).boost == if a.poolKey.value in boosts then boosts[a.poolKey.value] else 0
  {
    SharedSteady(a, b);
    assert [] + [a] == [a] && [a] + [b] == [a, b];
    TotalsOfNone([], boosts);
    CountsOfOneMore([], a, boosts);
    CountsOfOneMore([a], b, boosts);
  }

  lemma SharedSteady(a: Budget, b: Budget)
    requires SteadyRegime(a) && SteadyRegime(b) && a.poolKey == b.poolKey && !Unpooled(a)
    requires 0 <= a.monthlyTokens && 0 <= b.monthlyTokens
    ensures Figure([a, b], MonthlyTokens, IsSteady) ==
              if a.monthlyTokens >= b.monthlyTokens then a.monthlyTokens else b.monthlyTokens
  {
    assert [] + [a] == [a] && [a] + [b] == [a, b];
    Regimes(a);
    Regimes(b);
    FigureOfNone(MonthlyTokens, IsSteady);
    FigureOfOneMore([], a, MonthlyTokens, IsSteady, 0);
    assert Rival([a], b, IsSteady, 0);
    FigureOfOneMore([a], b, MonthlyTokens, IsSteady, a.monthlyTokens);
  }
}
