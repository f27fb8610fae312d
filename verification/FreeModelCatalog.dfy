/**
 * The free-tier figures: token budgets summed with each shared pool counted once.
 *
 * The reference definition, `DedupedSum`, is the sum of the pool-less entries plus, for
 * every pool, the largest entry of that pool. The method of the same purpose accumulates it in
 * one pass with a map; the laws are proved about the definition.
 */
module FreeModelCatalog {
  import opened Options
  import Sets

  datatype FreeType =
    | RecurringDaily | RecurringMonthly | RecurringCredit | RecurringUncapped
    | OneTimeInitial | Keyless | Discontinued

  datatype Bucket = SteadyMonthly | CreditRecurring | CreditOneTime | Uncapped | NoFigure

  datatype Tos = TosOk | TosCaution | TosAmbiguous | TosAvoid | TosUnknown

  datatype Budget = Budget(
    provider: string, modelId: string, monthlyTokens: int, creditTokens: int,
    freeType: FreeType, poolKey: Option<string>, tos: Tos, enabled: bool)

  function TokenBucket(freeType: FreeType): Bucket {
    match freeType
    case RecurringDaily => SteadyMonthly
    case RecurringMonthly => SteadyMonthly
    case RecurringCredit => CreditRecurring
    case RecurringUncapped => Uncapped
    case OneTimeInitial => CreditOneTime
    case Keyless => SteadyMonthly
    case Discontinued => NoFigure
  }

  function FreeTypesInBucket(bucket: Bucket): set<FreeType> {
    set t: FreeType | TokenBucket(t) == bucket
  }

  predicate GrantsFreeAccess(freeType: FreeType) {
    freeType != Discontinued
  }

  /** The regimes of each figure; only a regime that grants no access feeds no figure. */
  lemma BucketMembers()
    ensures FreeTypesInBucket(SteadyMonthly) == {RecurringDaily, RecurringMonthly, Keyless}
    ensures FreeTypesInBucket(CreditRecurring) == {RecurringCredit}
    ensures FreeTypesInBucket(CreditOneTime) == {OneTimeInitial}
    ensures FreeTypesInBucket(Uncapped) == {RecurringUncapped}
    ensures forall t: FreeType :: t in FreeTypesInBucket(NoFigure) <==> !GrantsFreeAccess(t)
  {
    forall t: FreeType ensures t in FreeTypesInBucket(TokenBucket(t)) {
      match t { case _ => }
    }
  }

  /** The pool an entry shares; an empty key means none. */
  function Pool(m: Budget): Option<string> {
    if m.poolKey == Some("") then None else m.poolKey
  }

  // --------------------------------------------------- the deduplicated sum, defined

  /** What one entry puts into a figure. */
  datatype Contribution = Contribution(pool: Option<string>, tokens: int)

  function Max(a: int, b: int): int {
    if a >= b then a else b
  }

  function Loose(cs: seq<Contribution>): int {
    if cs == [] then 0 else (if cs[0].pool.None? then cs[0].tokens else 0) + Loose(cs[1..])
  }

  /** The largest contribution to a pool, never below zero. */
  function PoolMax(cs: seq<Contribution>, pool: string): (max: int)
    ensures max >= 0
  {
    if cs == [] then 0
    else Max(if cs[0].pool == Some(pool) then cs[0].tokens else 0, PoolMax(cs[1..], pool))
  }

  function Pools(cs: seq<Contribution>): set<string> {
    set c | c in cs && c.pool.Some? :: c.pool.value
  }

  function Maxima(pools: set<string>, cs: seq<Contribution>): map<string, int> {
    map p | p in pools :: PoolMax(cs, p)
  }

  ghost function SumValues(m: map<string, int>): int {
    if m == map[] then 0 else var k :| k in m; m[k] + SumValues(m - {k})
  }

  function PoolMaxima(cs: seq<Contribution>): map<string, int> {
    Maxima(Pools(cs), cs)
  }

  ghost function DedupedSum(cs: seq<Contribution>): int {
    Loose(cs) + SumValues(PoolMaxima(cs))
  }

  function Lookup(m: map<string, int>, k: string): int {
    if k in m then m[k] else 0
  }

  function PlainSum(cs: seq<Contribution>): int {
    if cs == [] then 0 else cs[0].tokens + PlainSum(cs[1..])
  }

  predicate NonNegative(cs: seq<Contribution>) {
    forall c | c in cs :: c.tokens >= 0
  }

  // --------------------------------------------------------------- sums over maps

  lemma {:induction false} SumRemove(m: map<string, int>, k: string)
    requires k in m
    ensures SumValues(m) == m[k] + SumValues(m - {k})
    decreases |m|
  {
    var k0 :| k0 in m && SumValues(m) == m[k0] + SumValues(m - {k0});
    if k0 != k {
      SumRemove(m - {k0}, k);
      SumRemove(m - {k}, k0);
      assert m - {k0} - {k} == m - {k} - {k0};
    }
  }

  lemma SumUpdate(m: map<string, int>, k: string, v: int)
    ensures SumValues(m[k := v]) == SumValues(m) + v - Lookup(m, k)
  {
    SumRemove(m[k := v], k);
    assert m[k := v] - {k} == m - {k};
    if k in m {
      SumRemove(m, k);
    } else {
      assert m - {k} == m;
    }
  }

  lemma {:induction false} SumAdds(a: map<string, int>, b: map<string, int>, total: map<string, int>)
    requires a.Keys == b.Keys == total.Keys
    requires forall k | k in total :: total[k] == a[k] + b[k]
    ensures SumValues(total) == SumValues(a) + SumValues(b)
    decreases |total|
  {
    if total != map[] {
      var k :| k in total;
      SumRemove(a, k);
      SumRemove(b, k);
      SumRemove(total, k);
      SumAdds(a - {k}, b - {k}, total - {k});
    } else {
      assert a == map[] && b == map[];
    }
  }

  /** A sum of naturals is zero only when every summand is. */
  lemma {:induction false} SumOfNaturals(m: map<string, int>)
    requires forall k | k in m :: m[k] >= 0
    ensures SumValues(m) >= 0
    ensures SumValues(m) == 0 <==> forall k | k in m :: m[k] == 0
    decreases |m|
  {
    if m != map[] {
      var k :| k in m;
      SumRemove(m, k);
      SumOfNaturals(m - {k});
      assert (forall x | x in m :: m[x] == 0) <==> m[k] == 0 && forall x | x in m - {k} :: m[x] == 0;
    }
  }

  lemma SumMonotone(a: map<string, int>, b: map<string, int>)
    requires a.Keys == b.Keys
    requires forall k | k in a :: a[k] <= b[k]
    ensures SumValues(a) <= SumValues(b)
  {
    var gap := map k | k in a :: b[k] - a[k];
    SumAdds(a, gap, b);
    SumOfNaturals(gap);
  }

  lemma {:induction false} PoolMaxOutside(cs: seq<Contribution>, pool: string)
    requires pool !in Pools(cs)
    ensures PoolMax(cs, pool) == 0
  {
    if cs != [] {
      assert cs[0] in cs;
      PoolMaxOutside(cs[1..], pool);
    }
  }

  lemma LookupMaximum(cs: seq<Contribution>, pool: string)
    ensures Lookup(PoolMaxima(cs), pool) == PoolMax(cs, pool)
  {
    if pool !in Pools(cs) {
      PoolMaxOutside(cs, pool);
    }
  }

  /** Pools nobody contributes to may be added to the sum freely. */
  lemma {:induction false} SumOverMorePools(pools: set<string>, cs: seq<Contribution>)
    requires Pools(cs) <= pools
    ensures DedupedSum(cs) == Loose(cs) + SumValues(Maxima(pools, cs))
    decreases |pools - Pools(cs)|
  {
    if p :| p in pools && p !in Pools(cs) {
      assert pools - {p} - Pools(cs) == (pools - Pools(cs)) - {p};
      SumOverMorePools(pools - {p}, cs);
      SumRemove(Maxima(pools, cs), p);
      PoolMaxOutside(cs, p);
      assert Maxima(pools, cs) - {p} == Maxima(pools - {p}, cs);
    } else {
      assert pools == Pools(cs);
    }
  }

  // -------------------------------------------------------------- concatenation laws

  lemma {:induction false} LooseConcat(a: seq<Contribution>, b: seq<Contribution>)
    ensures Loose(a + b) == Loose(a) + Loose(b)
  {
    if a == [] {
      assert a + b == b;
    } else {
      assert (a + b)[1..] == a[1..] + b;
      LooseConcat(a[1..], b);
    }
  }

  lemma {:induction false} PoolMaxConcat(a: seq<Contribution>, b: seq<Contribution>, pool: string)
    ensures PoolMax(a + b, pool) == Max(PoolMax(a, pool), PoolMax(b, pool))
  {
    if a == [] {
      assert a + b == b;
    } else {
      assert (a + b)[1..] == a[1..] + b;
      PoolMaxConcat(a[1..], b, pool);
    }
  }

  lemma PoolsConcat(a: seq<Contribution>, b: seq<Contribution>)
    ensures Pools(a + b) == Pools(a) + Pools(b)
  {
    assert forall c :: c in a + b <==> c in a || c in b;
  }

  /** What joining two catalogs costs the sum: nothing but the overlap of the pools. */
  ghost function Overlap(a: seq<Contribution>, b: seq<Contribution>): map<string, int> {
    map p | p in Pools(a) + Pools(b) :: PoolMax(a, p) + PoolMax(b, p) - Max(PoolMax(a, p), PoolMax(b, p))
  }

  lemma JoinedSum(a: seq<Contribution>, b: seq<Contribution>)
    ensures DedupedSum(a + b) + SumValues(Overlap(a, b)) == DedupedSum(a) + DedupedSum(b)
  {
    var pools := Pools(a) + Pools(b);
    var both := map p | p in pools :: PoolMax(a, p) + PoolMax(b, p);
    PoolsConcat(a, b);
    LooseConcat(a, b);
    SumOverMorePools(pools, a);
    SumOverMorePools(pools, b);
    SumAdds(Maxima(pools, a), Maxima(pools, b), both);
    forall p | p in pools ensures PoolMax(a + b, p) == Max(PoolMax(a, p), PoolMax(b, p)) {
      PoolMaxConcat(a, b, p);
    }
    SumAdds(Maxima(pools, a + b), Overlap(a, b), both);
  }

  /**
   * Joining two catalogs never gives more than the two sums; it gives exactly the two sums
   * if and only if no pool has a positive entry on both sides.
   */
  lemma SubadditiveAndExactlyWhenAdditive(a: seq<Contribution>, b: seq<Contribution>)
    ensures DedupedSum(a + b) <= DedupedSum(a) + DedupedSum(b)
    ensures DedupedSum(a + b) == DedupedSum(a) + DedupedSum(b)
       <==> forall p | p in Pools(a) * Pools(b) :: PoolMax(a, p) == 0 || PoolMax(b, p) == 0
  {
    JoinedSum(a, b);
    var overlap := Overlap(a, b);
    SumOfNaturals(overlap);
    forall p | p in overlap
      ensures overlap[p] == 0 <==> p in Pools(a) * Pools(b) ==> PoolMax(a, p) == 0 || PoolMax(b, p) == 0
    {
      if p !in Pools(a) {
        PoolMaxOutside(a, p);
      } else if p !in Pools(b) {
        PoolMaxOutside(b, p);
      }
    }
  }

  /** Catalogs that share no pool add up exactly. */
  lemma DisjointPoolsAdd(a: seq<Contribution>, b: seq<Contribution>)
    requires Pools(a) !! Pools(b)
    ensures DedupedSum(a + b) == DedupedSum(a) + DedupedSum(b)
  {
    SubadditiveAndExactlyWhenAdditive(a, b);
  }

  lemma OneContribution(c: Contribution, pool: string)
    ensures Loose([c]) == if c.pool.None? then c.tokens else 0
    ensures PoolMax([c], pool) == if c.pool == Some(pool) then Max(c.tokens, 0) else 0
    ensures Pools([c]) == if c.pool.Some? then {c.pool.value} else {}
  {
    assert [c][1..] == [];
    assert forall x :: x in [c] <==> x == c;
  }

  lemma DedupedSumOne(c: Contribution)
    ensures DedupedSum([c]) == if c.pool.Some? then Max(c.tokens, 0) else c.tokens
  {
    var pool := if c.pool.Some? then c.pool.value else "";
    OneContribution(c, pool);
    var maxima := PoolMaxima([c]);
    if c.pool.Some? {
      SumRemove(maxima, pool);
      assert maxima - {pool} == map[];
    } else {
      assert maxima == map[];
    }
  }

  lemma {:induction false} LooseNonNegative(cs: seq<Contribution>)
    requires NonNegative(cs)
    ensures Loose(cs) >= 0
  {
    if cs != [] {
      assert cs[0] in cs;
      LooseNonNegative(cs[1..]);
    }
  }

  lemma NonNegativeSum(cs: seq<Contribution>)
    requires NonNegative(cs)
    ensures DedupedSum(cs) >= 0
  {
    LooseNonNegative(cs);
    SumOfNaturals(PoolMaxima(cs));
  }

  /** Deduplication only ever lowers a sum of naturals. */
  lemma {:induction false} NeverAbovePlainSum(cs: seq<Contribution>)
    requires NonNegative(cs)
    ensures 0 <= DedupedSum(cs) <= PlainSum(cs)
  {
    NonNegativeSum(cs);
    if cs != [] {
      assert cs == [cs[0]] + cs[1..] && cs[0] in cs;
      NeverAbovePlainSum(cs[1..]);
      DedupedSumOne(cs[0]);
      SubadditiveAndExactlyWhenAdditive([cs[0]], cs[1..]);
    } else {
      assert PoolMaxima(cs) == map[];
    }
  }

  // ------------------------------------------------------------- order independence

  lemma MatchingEntry<T>(a: seq<T>, b: seq<T>) returns (i: nat)
    requires multiset(a) == multiset(b) && a != []
    ensures i < |b| && b[i] == a[0]
    ensures multiset(a[1..]) == multiset(b[..i] + b[i + 1..])
  {
    assert a == [a[0]] + a[1..];
    assert a[0] in multiset(b);
    i :| 0 <= i < |b| && b[i] == a[0];
    assert b == b[..i] + ([b[i]] + b[i + 1..]);
    assert multiset(a[1..]) == multiset(a) - multiset{a[0]};
  }

  lemma {:induction false} PermutedParts(a: seq<Contribution>, b: seq<Contribution>, pool: string)
    requires multiset(a) == multiset(b)
    ensures Loose(a) == Loose(b) && PoolMax(a, pool) == PoolMax(b, pool)
  {
    if a == [] {
      assert |multiset(b)| == 0;
    } else {
      var i := MatchingEntry(a, b);
      PermutedParts(a[1..], b[..i] + b[i + 1..], pool);
      RotatedParts(b[i], b[..i], b[i + 1..], pool);
      PartsOfFirst(a, pool);
      PartsOfFirst([b[i]] + (b[..i] + b[i + 1..]), pool);
      assert b == b[..i] + ([b[i]] + b[i + 1..]);
      assert ([b[i]] + (b[..i] + b[i + 1..]))[1..] == b[..i] + b[i + 1..];
    }
  }

  lemma PartsOfFirst(cs: seq<Contribution>, pool: string)
    requires cs != []
    ensures Loose(cs) == Loose([cs[0]]) + Loose(cs[1..])
    ensures PoolMax(cs, pool) == Max(PoolMax([cs[0]], pool), PoolMax(cs[1..], pool))
  {
    assert cs == [cs[0]] + cs[1..];
    LooseConcat([cs[0]], cs[1..]);
    PoolMaxConcat([cs[0]], cs[1..], pool);
  }

  lemma RotatedParts(c: Contribution, before: seq<Contribution>, after: seq<Contribution>, pool: string)
    ensures Loose(before + ([c] + after)) == Loose([c] + (before + after))
    ensures PoolMax(before + ([c] + after), pool) == PoolMax([c] + (before + after), pool)
  {
    LooseConcat(before, [c] + after);
    LooseConcat([c], after);
    LooseConcat([c], before + after);
    LooseConcat(before, after);
    PoolMaxConcat(before, [c] + after, pool);
    PoolMaxConcat([c], after, pool);
    PoolMaxConcat([c], before + after, pool);
    PoolMaxConcat(before, after, pool);
  }

  /** The sum does not depend on the order of the catalog. */
  lemma OrderIndependent(a: seq<Contribution>, b: seq<Contribution>)
    requires multiset(a) == multiset(b)
    ensures DedupedSum(a) == DedupedSum(b)
  {
    assert forall c :: c in a <==> c in multiset(a);
    assert forall c :: c in b <==> c in multiset(b);
    assert Pools(a) == Pools(b);
    PermutedParts(a, b, "");
    forall p ensures PoolMax(a, p) == PoolMax(b, p) {
      PermutedParts(a, b, p);
    }
    assert PoolMaxima(a) == PoolMaxima(b);
  }

  // ------------------------------------------------------------------ the algorithm

  /** A filter and a map in one pass. */
  function Collect<T, U>(xs: seq<T>, f: T -> seq<U>): seq<U> {
    if xs == [] then [] else f(xs[0]) + Collect(xs[1..], f)
  }

  lemma {:induction false} CollectConcat<T, U>(a: seq<T>, b: seq<T>, f: T -> seq<U>)
    ensures Collect(a + b, f) == Collect(a, f) + Collect(b, f)
  {
    if a == [] {
      assert a + b == b;
    } else {
      assert (a + b)[1..] == a[1..] + b;
      CollectConcat(a[1..], b, f);
      assert f(a[0]) + (Collect(a[1..], f) + Collect(b, f)) == f(a[0]) + Collect(a[1..], f) + Collect(b, f);
    }
  }

  lemma CollectAround<T, U>(before: seq<T>, x: T, after: seq<T>, f: T -> seq<U>)
    ensures Collect(before + [x] + after, f) == Collect(before, f) + f(x) + Collect(after, f)
    ensures Collect(before + after, f) == Collect(before, f) + Collect(after, f)
  {
    CollectConcat(before, after, f);
    CollectConcat(before + [x], after, f);
    CollectConcat(before, [x], f);
    CollectOne(x, f);
  }

  lemma CollectOne<T, U>(x: T, f: T -> seq<U>)
    ensures Collect([x], f) == f(x)
  {
    assert [x][1..] == [];
  }

  lemma CollectBag<T, U>(before: seq<T>, x: T, after: seq<T>, f: T -> seq<U>)
    ensures multiset(Collect(before + [x] + after, f)) == multiset(f(x)) + multiset(Collect(before + after, f))
  {
    CollectAround(before, x, after, f);
  }

  lemma {:induction false} CollectPermuted<T, U>(a: seq<T>, b: seq<T>, f: T -> seq<U>)
    requires multiset(a) == multiset(b)
    ensures multiset(Collect(a, f)) == multiset(Collect(b, f))
  {
    if a == [] {
      assert |multiset(b)| == 0;
    } else {
      var i := MatchingEntry(a, b);
      var before, after := b[..i], b[i + 1..];
      CollectPermuted(a[1..], before + after, f);
      assert b == before + [b[i]] + after;
      CollectBag(before, b[i], after, f);
    }
  }

  function Contributor(pick: Budget -> int, counts: Budget -> bool): Budget -> seq<Contribution> {
    (m: Budget) => if counts(m) then [Contribution(Pool(m), pick(m))] else []
  }

  function Contributions(models: seq<Budget>, pick: Budget -> int, counts: Budget -> bool): seq<Contribution> {
    Collect(models, Contributor(pick, counts))
  }

  /** How the running map and total of the pass change with one more contribution. */
  lemma OneMore(cs: seq<Contribution>, c: Contribution)
    ensures Loose(cs + [c]) == Loose(cs) + if c.pool.None? then c.tokens else 0
    ensures PoolMaxima(cs + [c]) ==
      if c.pool.None? then PoolMaxima(cs)
      else PoolMaxima(cs)[c.pool.value := Max(Lookup(PoolMaxima(cs), c.pool.value), c.tokens)]
  {
    LooseConcat(cs, [c]);
    PoolsConcat(cs, [c]);
    forall p
      ensures PoolMax(cs + [c], p) == if c.pool == Some(p) then Max(PoolMax(cs, p), c.tokens) else PoolMax(cs, p)
    {
      PoolMaxConcat(cs, [c], p);
      OneContribution(c, p);
    }
    if c.pool.Some? {
      LookupMaximum(cs, c.pool.value);
    }
  }

  lemma OneMoreModel(models: seq<Budget>, i: nat, pick: Budget -> int, counts: Budget -> bool)
    requires i < |models|
    ensures Contributions(models[..i + 1], pick, counts) ==
      var (before, m) := (Contributions(models[..i], pick, counts), models[i]);
      if counts(m) then before + [Contribution(Pool(m), pick(m))] else before
  {
    assert models[..i + 1] == models[..i] + [models[i]] + [];
    CollectAround(models[..i], models[i], [], Contributor(pick, counts));
  }

  /** One pass with a map of pool maxima, then the maxima added to the loose total. */
  method SumOncePerPool(models: seq<Budget>, pick: Budget -> int, counts: Budget -> bool) returns (total: int)
    ensures total == DedupedSum(Contributions(models, pick, counts))
  {
    var poolMax: map<string, int> := map[];
    var loose := 0;
    for i := 0 to |models|
      invariant poolMax == PoolMaxima(Contributions(models[..i], pick, counts))
      invariant loose == Loose(Contributions(models[..i], pick, counts))
    {
      var m := models[i];
      OneMoreModel(models, i, pick, counts);
      if counts(m) {
        OneMore(Contributions(models[..i], pick, counts), Contribution(Pool(m), pick(m)));
        var key := Pool(m);
        if key.Some? {
          poolMax := poolMax[key.value := Max(Lookup(poolMax, key.value), pick(m))];
        } else {
          loose := loose + pick(m);
        }
      }
    }
    assert models[..|models|] == models;
    total := AddValues(loose, poolMax);
  }

  method AddValues(start: int, values: map<string, int>) returns (total: int)
    ensures total == start + SumValues(values)
  {
    total := start;
    var pending := values;
    while pending != map[]
      invariant total + SumValues(pending) == start + SumValues(values)
      decreases |pending|
    {
      var key :| key in pending;
      SumRemove(pending, key);
      total := total + pending[key];
      pending := pending - {key};
    }
  }

  // ---------------------------------------------------------------------- totals

  datatype Totals = Totals(
    steady: int, steadyWithCredits: int, firstMonth: int, boost: int,
    uncappedProviders: set<string>, modelCount: nat, poolCount: nat)

  predicate Active(m: Budget, excludeAvoid: bool) {
    !(excludeAvoid && m.tos == TosAvoid) && m.enabled
  }

  function Keep(excludeAvoid: bool): Budget -> seq<Budget> {
    (m: Budget) => if Active(m, excludeAvoid) then [m] else []
  }

  function Filter(entries: seq<Budget>, excludeAvoid: bool): seq<Budget> {
    Collect(entries, Keep(excludeAvoid))
  }

  function MonthlyTokens(m: Budget): int { m.monthlyTokens }

  function CreditTokens(m: Budget): int { m.creditTokens }

  predicate IsSteady(m: Budget) { m.freeType in FreeTypesInBucket(SteadyMonthly) }

  predicate IsRecurringCredit(m: Budget) { m.freeType in FreeTypesInBucket(CreditRecurring) }

  predicate IsOneTimeCredit(m: Budget) { m.freeType in FreeTypesInBucket(CreditOneTime) }

  predicate IsUncapped(m: Budget) { m.freeType in FreeTypesInBucket(Uncapped) }

  function Steady(models: seq<Budget>): seq<Contribution> {
    Contributions(models, MonthlyTokens, IsSteady)
  }

  function RecurringCredits(models: seq<Budget>): seq<Contribution> {
    Contributions(models, CreditTokens, IsRecurringCredit)
  }

  function OneTimeCredits(models: seq<Budget>): seq<Contribution> {
    Contributions(models, CreditTokens, IsOneTimeCredit)
  }

  /** The pools that still have a live recurring model. */
  function LivePools(models: seq<Budget>): set<string> {
    set m | m in models && IsSteady(m) && Pool(m).Some? :: Pool(m).value
  }

  function LiveBoosts(models: seq<Budget>, boosts: map<string, int>): map<string, int> {
    map p | p in boosts && p in LivePools(models) :: boosts[p]
  }

  function UncappedProviders(models: seq<Budget>): set<string> {
    set m | m in models && IsUncapped(m) :: m.provider
  }

  ghost function TotalsOf(models: seq<Budget>, boosts: map<string, int>): Totals {
    var steady := DedupedSum(Steady(models));
    var recurring := DedupedSum(RecurringCredits(models));
    var oneTime := DedupedSum(OneTimeCredits(models));
    Totals(steady, steady + recurring, steady + recurring + oneTime, SumValues(LiveBoosts(models, boosts)),
           UncappedProviders(models), |models|, |LivePools(models)|)
  }

  method ComputeTotals(entries: seq<Budget>, excludeAvoid: bool, boosts: map<string, int>) returns (t: Totals)
    ensures t == TotalsOf(Filter(entries, excludeAvoid), boosts)
  {
    var models := Filter(entries, excludeAvoid);
    var steady := SumOncePerPool(models, MonthlyTokens, IsSteady);
    var recurring := SumOncePerPool(models, CreditTokens, IsRecurringCredit);
    var oneTime := SumOncePerPool(models, CreditTokens, IsOneTimeCredit);
    var boost := AddValues(0, LiveBoosts(models, boosts));
    t := Totals(steady, steady + recurring, steady + recurring + oneTime, boost,
                UncappedProviders(models), |models|, |LivePools(models)|);
  }

  // --------------------------------------------------------------- laws of the totals

  predicate NonNegativeBudgets(models: seq<Budget>) {
    forall m | m in models :: m.monthlyTokens >= 0 && m.creditTokens >= 0
  }

  lemma {:induction false} ContributionsNonNegative(models: seq<Budget>, pick: Budget -> int, counts: Budget -> bool)
    requires forall m | m in models :: pick(m) >= 0
    ensures NonNegative(Contributions(models, pick, counts))
  {
    if models != [] {
      assert models[0] in models;
      ContributionsNonNegative(models[1..], pick, counts);
    }
  }

  /** steady <= steady with recurring credits <= first month. */
  lemma TotalsAreOrdered(models: seq<Budget>, boosts: map<string, int>)
    requires NonNegativeBudgets(models)
    ensures var t := TotalsOf(models, boosts); 0 <= t.steady <= t.steadyWithCredits <= t.firstMonth
  {
    ContributionsNonNegative(models, MonthlyTokens, IsSteady);
    ContributionsNonNegative(models, CreditTokens, IsRecurringCredit);
    ContributionsNonNegative(models, CreditTokens, IsOneTimeCredit);
    NonNegativeSum(Steady(models));
    NonNegativeSum(RecurringCredits(models));
    NonNegativeSum(OneTimeCredits(models));
  }

  /** What one more entry is worth: its tokens, or what it adds over the best of its pool. */
  lemma MarginalContribution(cs: seq<Contribution>, c: Contribution)
    ensures DedupedSum(cs + [c]) == DedupedSum(cs) +
      if c.pool.None? then c.tokens else Max(0, c.tokens - PoolMax(cs, c.pool.value))
  {
    OneMore(cs, c);
    if c.pool.Some? {
      MaximaGain(cs, c.pool.value, c.tokens);
    }
  }

  lemma MaximaGain(cs: seq<Contribution>, pool: string, tokens: int)
    ensures SumValues(PoolMaxima(cs)[pool := Max(Lookup(PoolMaxima(cs), pool), tokens)])
         == SumValues(PoolMaxima(cs)) + Max(0, tokens - PoolMax(cs, pool))
  {
    LookupMaximum(cs, pool);
    SumUpdate(PoolMaxima(cs), pool, Max(PoolMax(cs, pool), tokens));
  }

  lemma InsertedContribution(before: seq<Contribution>, c: Contribution, after: seq<Contribution>)
    requires c.tokens >= 0
    ensures DedupedSum(before + after) <= DedupedSum(before + [c] + after) <= DedupedSum(before + after) + c.tokens
  {
    OrderIndependent(before + [c] + after, before + after + [c]);
    MarginalContribution(before + after, c);
  }

  /**
   * One more entry, anywhere in the catalog, raises a figure by at most what it offers, and not
   * at all if it does not count.
   */
  lemma FigureGain(before: seq<Budget>, m: Budget, after: seq<Budget>, pick: Budget -> int, counts: Budget -> bool)
    requires pick(m) >= 0
    ensures
      var less := DedupedSum(Contributions(before + after, pick, counts));
      var more := DedupedSum(Contributions(before + [m] + after, pick, counts));
      less <= more <= less + if counts(m) then pick(m) else 0
  {
    var b, a := Contributions(before, pick, counts), Contributions(after, pick, counts);
    CollectAround(before, m, after, Contributor(pick, counts));
    if counts(m) {
      InsertedContribution(b, Contribution(Pool(m), pick(m)), a);
    } else {
      assert b + [] + a == b + a;
    }
  }

  /** Each entry feeds at most one of the three sums, and by no more than its tokens. */
  lemma EntryFeedsOneFigure(before: seq<Budget>, m: Budget, after: seq<Budget>)
    requires NonNegativeBudgets([m])
    ensures
      var (less, more) := (before + after, before + [m] + after);
      var steady := DedupedSum(Steady(more)) - DedupedSum(Steady(less));
      var recurring := DedupedSum(RecurringCredits(more)) - DedupedSum(RecurringCredits(less));
      var oneTime := DedupedSum(OneTimeCredits(more)) - DedupedSum(OneTimeCredits(less));
      && 0 <= steady <= m.monthlyTokens && 0 <= recurring <= m.creditTokens && 0 <= oneTime <= m.creditTokens
      && (steady == recurring == 0 || steady == oneTime == 0 || recurring == oneTime == 0)
  {
    assert m in [m];
    FigureGain(before, m, after, MonthlyTokens, IsSteady);
    FigureGain(before, m, after, CreditTokens, IsRecurringCredit);
    FigureGain(before, m, after, CreditTokens, IsOneTimeCredit);
  }

  /** A disabled entry contributes nothing, exactly as if it were absent. */
  lemma DisabledIsAbsent(before: seq<Budget>, m: Budget, after: seq<Budget>, excludeAvoid: bool,
                         boosts: map<string, int>)
    requires !m.enabled
    ensures TotalsOf(Filter(before + [m] + after, excludeAvoid), boosts) ==
              TotalsOf(Filter(before + after, excludeAvoid), boosts)
  {
    CollectAround(before, m, after, Keep(excludeAvoid));
    assert Filter(before, excludeAvoid) + [] + Filter(after, excludeAvoid) == Filter(before + after, excludeAvoid);
  }

  // Excluding the entries a provider's terms warn against.

  lemma ContributionsCons(m: Budget, rest: seq<Budget>, pick: Budget -> int, counts: Budget -> bool, pool: string)
    ensures
      var (cs, tail) := (Contributions([m] + rest, pick, counts), Contributions(rest, pick, counts));
      && Loose(cs) == Loose(tail) + (if counts(m) && Pool(m).None? then pick(m) else 0)
      && PoolMax(cs, pool) == Max(if counts(m) && Pool(m) == Some(pool) then pick(m) else 0, PoolMax(tail, pool))
  {
    assert ([m] + rest)[1..] == rest;
    var tail := Contributions(rest, pick, counts);
    if counts(m) {
      assert ([Contribution(Pool(m), pick(m))] + tail)[1..] == tail;
    } else {
      assert [] + tail == tail;
    }
  }

  lemma FilterCons(m: Budget, rest: seq<Budget>, excludeAvoid: bool)
    ensures Filter([m] + rest, excludeAvoid)
         == if Active(m, excludeAvoid) then [m] + Filter(rest, excludeAvoid) else Filter(rest, excludeAvoid)
  {
    assert ([m] + rest)[1..] == rest;
  }

  lemma {:induction false} ExcludedParts(entries: seq<Budget>, pick: Budget -> int, counts: Budget -> bool,
                                         pool: string)
    requires forall m | m in entries :: pick(m) >= 0
    ensures
      var less := Contributions(Filter(entries, true), pick, counts);
      var more := Contributions(Filter(entries, false), pick, counts);
      Loose(less) <= Loose(more) && PoolMax(less, pool) <= PoolMax(more, pool)
  {
    if entries != [] {
      var m, rest := entries[0], entries[1..];
      assert m in entries;
      ExcludedParts(rest, pick, counts, pool);
      ContributionsCons(m, Filter(rest, true), pick, counts, pool);
      ContributionsCons(m, Filter(rest, false), pick, counts, pool);
      FilterCons(m, rest, true);
      FilterCons(m, rest, false);
      assert entries == [m] + rest;
    }
  }

  lemma ExcludedFigure(entries: seq<Budget>, pick: Budget -> int, counts: Budget -> bool)
    requires forall m | m in entries :: pick(m) >= 0
    ensures DedupedSum(Contributions(Filter(entries, true), pick, counts))
         <= DedupedSum(Contributions(Filter(entries, false), pick, counts))
  {
    var less := Contributions(Filter(entries, true), pick, counts);
    var more := Contributions(Filter(entries, false), pick, counts);
    var pools := Pools(less) + Pools(more);
    SumOverMorePools(pools, less);
    SumOverMorePools(pools, more);
    ExcludedParts(entries, pick, counts, "");
    forall p ensures PoolMax(less, p) <= PoolMax(more, p) {
      ExcludedParts(entries, pick, counts, p);
    }
    SumMonotone(Maxima(pools, less), Maxima(pools, more));
  }

  lemma {:induction false} ExcludedEntries(entries: seq<Budget>)
    ensures |Filter(entries, true)| <= |Filter(entries, false)|
    ensures forall m | m in Filter(entries, true) :: m in Filter(entries, false)
  {
    if entries != [] {
      ExcludedEntries(entries[1..]);
    }
  }

  lemma {:induction false} SubmapSum(a: map<string, int>, b: map<string, int>)
    requires a.Keys <= b.Keys && forall k | k in a :: a[k] == b[k]
    requires forall k | k in b :: b[k] >= 0
    ensures SumValues(a) <= SumValues(b)
    decreases |b|
  {
    if k :| k in b && k !in a {
      SumRemove(b, k);
      SubmapSum(a, b - {k});
    } else {
      assert a == b;
    }
  }

  /** Excluding the entries marked "avoid" never raises any figure. */
  lemma ExcludingAvoidNeverRaises(entries: seq<Budget>, boosts: map<string, int>)
    requires NonNegativeBudgets(entries)
    requires forall pool | pool in boosts :: boosts[pool] >= 0
    ensures
      var (less, more) := (TotalsOf(Filter(entries, true), boosts), TotalsOf(Filter(entries, false), boosts));
      && less.steady <= more.steady && less.steadyWithCredits <= more.steadyWithCredits
      && less.firstMonth <= more.firstMonth && less.boost <= more.boost
      && less.uncappedProviders <= more.uncappedProviders
      && less.modelCount <= more.modelCount && less.poolCount <= more.poolCount
  {
    ExcludedFigure(entries, MonthlyTokens, IsSteady);
    ExcludedFigure(entries, CreditTokens, IsRecurringCredit);
    ExcludedFigure(entries, CreditTokens, IsOneTimeCredit);
    ExcludedEntries(entries);
    var less, more := Filter(entries, true), Filter(entries, false);
    assert LivePools(less) <= LivePools(more);
    Sets.SubsetSize(LivePools(less), LivePools(more));
    SubmapSum(LiveBoosts(less, boosts), LiveBoosts(more, boosts));
  }

  // Order independence of all totals.

  /** No total depends on the order of the catalog. */
  lemma TotalsAreOrderIndependent(a: seq<Budget>, b: seq<Budget>, excludeAvoid: bool, boosts: map<string, int>)
    requires multiset(a) == multiset(b)
    ensures TotalsOf(Filter(a, excludeAvoid), boosts) == TotalsOf(Filter(b, excludeAvoid), boosts)
  {
    CollectPermuted(a, b, Keep(excludeAvoid));
    SameTotals(Filter(a, excludeAvoid), Filter(b, excludeAvoid), boosts);
  }

  lemma SameFigure(a: seq<Budget>, b: seq<Budget>, pick: Budget -> int, counts: Budget -> bool)
    requires multiset(a) == multiset(b)
    ensures DedupedSum(Contributions(a, pick, counts)) == DedupedSum(Contributions(b, pick, counts))
  {
    CollectPermuted(a, b, Contributor(pick, counts));
    OrderIndependent(Contributions(a, pick, counts), Contributions(b, pick, counts));
  }

  lemma SameTotals(a: seq<Budget>, b: seq<Budget>, boosts: map<string, int>)
    requires multiset(a) == multiset(b)
    ensures TotalsOf(a, boosts) == TotalsOf(b, boosts)
  {
    SameFigure(a, b, MonthlyTokens, IsSteady);
    SameFigure(a, b, CreditTokens, IsRecurringCredit);
    SameFigure(a, b, CreditTokens, IsOneTimeCredit);
    SameMembers(a, b);
  }

  lemma SameMembers(a: seq<Budget>, b: seq<Budget>)
    requires multiset(a) == multiset(b)
    ensures |a| == |b| && LivePools(a) == LivePools(b) && UncappedProviders(a) == UncappedProviders(b)
  {
    assert |a| == |multiset(a)| && |b| == |multiset(b)|;
    forall m ensures m in a <==> m in b {
      assert m in a <==> m in multiset(a);
    }
  }
}
