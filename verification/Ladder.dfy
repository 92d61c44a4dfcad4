/** Two-mesh extrapolation, the refinement ladder that climbs on it, and the rung cache. */
module Ladder {
  import opened Wrappers
  import opened Reals

  // ----- the pair step -----

  /** `ratio` is two to the convergence order; the default order two gives four. */
  const THEORETICAL_RATIO := 4.0
  const SAFETY_FACTOR := 1.5

  datatype Pair = Pair(extrapolated: real, eps: real, fallbackUsed: bool)

  /** Extrapolates a coarse and a fine value; an order of zero has no extrapolation. */
  function Extrapolate(coarse: real, fine: real, ratio: real, safety: real): Pair
    requires ratio != 1.0
  {
    var raw := Abs(fine - coarse);
    var correction := (fine - coarse) / (ratio - 1.0);
    if Abs(correction) > raw then Pair(fine, raw, true)
    else Pair(fine + correction, safety * Abs(correction), false)
  }

  lemma QuotientScales(d: real, r: real)
    requires r != 0.0
    ensures Abs(d / r) * Abs(r) == Abs(d)
  {
    var q := d / r;
    assert q * r == d;
    if q >= 0.0 && r > 0.0 { NonNegative(q, r); }
    if q >= 0.0 && r < 0.0 { NonNegative(q, -r); assert q * (-r) == -d; }
    if q < 0.0 && r > 0.0 { NonNegative(-q, r); assert (-q) * r == -d; }
    if q < 0.0 && r < 0.0 { NonNegative(-q, -r); assert (-q) * (-r) == d; }
  }

  lemma NonNegative(x: real, y: real)
    requires x >= 0.0 && y >= 0.0
    ensures x * y >= 0.0
  {
  }

  /** The guard fires for any two different values when the order is small, and for no pair otherwise: it does not look
      at the data beyond their difference. It then answers the finer value with the whole difference as its error. */
  lemma FallbackIff(coarse: real, fine: real, ratio: real, safety: real)
    requires ratio != 1.0
    ensures Extrapolate(coarse, fine, ratio, safety).fallbackUsed <==> coarse != fine && Abs(ratio - 1.0) < 1.0
    ensures Extrapolate(coarse, fine, ratio, safety).fallbackUsed ==>
              Extrapolate(coarse, fine, ratio, safety) == Pair(fine, Abs(fine - coarse), true)
  {
    var d, r := fine - coarse, ratio - 1.0;
    QuotientScales(d, r);
    ScaledCompare(Abs(d / r), Abs(r), Abs(d));
    if d == 0.0 { assert d / r == 0.0; }
  }

  lemma ScaledCompare(q: real, r: real, d: real)
    requires q * r == d && q >= 0.0 && r > 0.0 && d >= 0.0
    ensures q > d <==> d != 0.0 && r < 1.0
  {
    if q > 0.0 {
      if r < 1.0 { Smaller(q, r, d); } else { Grows(q, r, d); }
    }
  }

  lemma Smaller(q: real, r: real, d: real)
    requires q * r == d && q > 0.0 && 0.0 < r && r < 1.0
    ensures d != 0.0 && d < q
  {
    Gap(q, r, d, 1.0 - r);
  }

  lemma Gap(q: real, r: real, d: real, gap: real)
    requires q * r == d && q > 0.0 && gap > 0.0 && gap == 1.0 - r
    ensures d < q
  {
    Positive(q, gap);
    assert q * gap == q - d;
  }

  lemma Grows(q: real, r: real, d: real)
    requires q * r == d && q > 0.0 && r >= 1.0
    ensures d >= q
  {
    NonNegative(q, r - 1.0);
    SplitProduct(q, r, 1.0);
  }

  lemma SplitProduct(x: real, y: real, z: real)
    ensures x * (y - z) == x * y - x * z
  {
  }

  lemma Positive(x: real, y: real)
    requires x > 0.0 && y > 0.0
    ensures x * y > 0.0
  {
  }

  /** When the guard fires it reports the raw difference; that is at most the extrapolated error if and only if the
      safety factor is at least the distance of the ratio from one, and less if and only if it is more than that. */
  lemma FallbackAgainstSafety(coarse: real, fine: real, ratio: real, safety: real)
    requires ratio != 1.0 && Extrapolate(coarse, fine, ratio, safety).fallbackUsed
    ensures var raw, extrapolated := Extrapolate(coarse, fine, ratio, safety).eps,
                                     safety * Abs((fine - coarse) / (ratio - 1.0));
            && (raw <= extrapolated <==> safety >= Abs(ratio - 1.0))
            && (raw < extrapolated <==> safety > Abs(ratio - 1.0))
  {
    hide Abs, Extrapolate;
    var d, q, r := Abs(fine - coarse), Abs((fine - coarse) / (ratio - 1.0)), Abs(ratio - 1.0);
    QuotientScales(fine - coarse, ratio - 1.0);
    RawReported(coarse, fine, ratio, safety);
    AgainstSafety(d, q, r, safety);
  }

  lemma RawReported(coarse: real, fine: real, ratio: real, safety: real)
    requires ratio != 1.0 && Extrapolate(coarse, fine, ratio, safety).fallbackUsed
    ensures Extrapolate(coarse, fine, ratio, safety).eps == Abs(fine - coarse) > 0.0 && Abs(ratio - 1.0) >= 0.0
  {
    FallbackIff(coarse, fine, ratio, safety);
  }

  lemma AgainstSafety(d: real, q: real, r: real, s: real)
    requires q * r == d && d > 0.0 && r >= 0.0
    ensures d <= s * q <==> r <= s
    ensures d < s * q <==> r < s
  {
    assert q > 0.0 by { if q <= 0.0 { NonNegative(-q, r); } }
    if r < s { Positive(q, s - r); SplitProduct(q, s, r); }
    if s < r { Positive(q, r - s); SplitProduct(q, r, s); }
  }

  /** So with a safety factor of at least one the fallback reports the smaller error. */
  lemma FallbackIsOptimistic(coarse: real, fine: real, ratio: real, safety: real)
    requires ratio != 1.0 && safety >= 1.0 && Extrapolate(coarse, fine, ratio, safety).fallbackUsed
    ensures Extrapolate(coarse, fine, ratio, safety).eps < safety * Abs((fine - coarse) / (ratio - 1.0))
  {
    FallbackAgainstSafety(coarse, fine, ratio, safety);
    FallbackIff(coarse, fine, ratio, safety);
  }

  /** At the default order the guard never fires, and the reported error is half the difference of the values. */
  lemma DefaultOrder(coarse: real, fine: real)
    ensures var p := Extrapolate(coarse, fine, THEORETICAL_RATIO, SAFETY_FACTOR);
            !p.fallbackUsed && p.eps == Abs(fine - coarse) / 2.0 && p.extrapolated == fine + (fine - coarse) / 3.0
  {
    FallbackIff(coarse, fine, THEORETICAL_RATIO, SAFETY_FACTOR);
  }

  /** Where the error of a value shrinks by the ratio from one mesh to the next, the extrapolated value is the true one,
      and the reported error is the safety factor times the fine value's error. */
  lemma ExtrapolationIsExact(truth: real, err: real, ratio: real, safety: real)
    requires Abs(ratio - 1.0) >= 1.0
    ensures var p := Extrapolate(truth + err * ratio, truth + err, ratio, safety);
            !p.fallbackUsed && p.extrapolated == truth && p.eps == safety * Abs(err)
  {
    FallbackIff(truth + err * ratio, truth + err, ratio, safety);
    SplitProduct(err, ratio, 1.0);
    QuotientOfProduct((truth + err) - (truth + err * ratio), ratio - 1.0, -err);
  }

  lemma QuotientOfProduct(d: real, r: real, q: real)
    requires r != 0.0 && d == q * r
    ensures d / r == q
  {
    SplitProduct(r, d / r, q);
    assert r * (d / r) == d;
    ZeroFactor(r, d / r - q);
  }

  lemma ZeroFactor(x: real, y: real)
    requires x != 0.0 && x * y == 0.0
    ensures y == 0.0
  {
  }

  // ----- the climb, without a cache -----

  datatype Outcome<+E> =
    | Answer(value: real, eps: real, rungsRun: nat)
    | Failed(error: E)
    | LadderExhausted(bestEps: real, budget: real, rungsTried: nat)
    | TooFewRungs
    | NonMonotone(rung: nat)

  /** Everything one climb is given: the rungs, coarsest first, how to run one, and the extrapolation's constants. */
  datatype Setup<!R, !E> = Setup(rungs: seq<R>, run: R -> Result<real, E>, ratio: real, safety: real) {
    predicate Valid() {
      ratio != 1.0
    }

    function Step(prev: real, value: real): Pair
      requires Valid()
    {
      Extrapolate(prev, value, ratio, safety)
    }
  }

  /** An outcome and how many rungs were asked for. */
  datatype Climbed<+E> = Climbed(outcome: Outcome<E>, used: nat)

  /** From rung `i` on, after a rung with value `prev` and, from the second pair on, the last pair's error. */
  function ClimbFrom<R, E>(p: Setup<R, E>, budget: Option<real>, i: nat, prev: real,
                           prevEps: Option<real>): (c: Climbed<E>)
    requires p.Valid() && 1 <= i <= |p.rungs|
    requires i == |p.rungs| ==> budget.Some? && prevEps.Some?
    ensures c.used <= |p.rungs|
    decreases |p.rungs| - i
  {
    if i == |p.rungs| then Climbed(LadderExhausted(prevEps.value, budget.value, |p.rungs|), |p.rungs|)
    else
      match p.run(p.rungs[i])
      case Err(e) => Climbed(Failed(e), i + 1)
      case Ok(value) =>
        var pair := p.Step(prev, value);
        if prevEps.Some? && pair.eps > prevEps.value then Climbed(NonMonotone(i), i + 1)
        else if budget.None? || pair.eps <= budget.value then Climbed(Answer(pair.extrapolated, pair.eps, i + 1), i + 1)
        else ClimbFrom(p, budget, i + 1, value, Some(pair.eps))
  }

  function Climb<R, E>(p: Setup<R, E>, budget: Option<real>): (c: Climbed<E>)
    requires p.Valid()
    ensures c.used <= |p.rungs|
  {
    if |p.rungs| < 2 then Climbed(TooFewRungs, 0)
    else
      match p.run(p.rungs[0])
      case Err(e) => Climbed(Failed(e), 1)
      case Ok(value) => ClimbFrom(p, budget, 1, value, None)
  }

  // ----- what a climb answers -----

  /** The pair that ends at rung `i`, when both its rungs ran. */
  function PairAt<R, E>(p: Setup<R, E>, i: nat): Pair
    requires p.Valid() && 1 <= i < |p.rungs| && p.run(p.rungs[i - 1]).Ok? && p.run(p.rungs[i]).Ok?
  {
    p.Step(p.run(p.rungs[i - 1]).value, p.run(p.rungs[i]).value)
  }

  ghost predicate AllRan<R, E>(p: Setup<R, E>, n: nat) {
    n <= |p.rungs| && forall j :: 0 <= j < n ==> p.run(p.rungs[j]).Ok?
  }

  /** Pairs 1 to `n - 1` get no worse, and each is over the budget. */
  ghost predicate Descending<R, E>(p: Setup<R, E>, n: nat, budget: Option<real>)
    requires p.Valid() && AllRan(p, n)
  {
    && (forall j :: 1 < j < n ==> PairAt(p, j).eps <= PairAt(p, j - 1).eps)
    && (forall j :: 1 <= j < n ==> budget.Some? && PairAt(p, j).eps > budget.value)
  }

  /** What each outcome says about the pairs. */
  ghost predicate Explains<R, E>(p: Setup<R, E>, budget: Option<real>, c: Climbed<E>)
    requires p.Valid()
  {
    match c.outcome
    case TooFewRungs => |p.rungs| < 2 && c.used == 0
    case Failed(e) => 1 <= c.used <= |p.rungs| && AllRan(p, c.used - 1) && p.run(p.rungs[c.used - 1]) == Err(e) &&
                      Descending(p, c.used - 1, budget)
    case Answer(value, eps, n) =>
      && c.used == n && 2 <= n <= |p.rungs| && AllRan(p, n) && Descending(p, n - 1, budget)
      && (budget.None? ==> n == 2) && (budget.Some? ==> eps <= budget.value)
      && value == PairAt(p, n - 1).extrapolated && eps == PairAt(p, n - 1).eps
      && (n > 2 ==> eps <= PairAt(p, n - 2).eps)
    case LadderExhausted(best, b, tried) =>
      && c.used == tried == |p.rungs| && |p.rungs| >= 2 && budget == Some(b) && AllRan(p, |p.rungs|)
      && Descending(p, |p.rungs|, budget) && best > b
      && best == PairAt(p, |p.rungs| - 1).eps && forall j :: 1 <= j < |p.rungs| ==> best <= PairAt(p, j).eps
    case NonMonotone(i) =>
      && c.used == i + 1 && 2 <= i < |p.rungs| && AllRan(p, i + 1) && Descending(p, i, budget)
      && PairAt(p, i).eps > PairAt(p, i - 1).eps
  }

  lemma {:induction false} DescendingIsMinimum<R, E>(p: Setup<R, E>, n: nat, budget: Option<real>, j: nat, k: nat)
    requires p.Valid() && AllRan(p, n) && Descending(p, n, budget) && 1 <= j <= k < n
    ensures PairAt(p, k).eps <= PairAt(p, j).eps
    decreases k - j
  {
    if j < k { DescendingIsMinimum(p, n, budget, j, k - 1); }
  }

  lemma {:induction false} ClimbFromExplains<R, E>(p: Setup<R, E>, budget: Option<real>, i: nat, prev: real,
                                                   prevEps: Option<real>)
    requires p.Valid() && 1 <= i <= |p.rungs| && |p.rungs| >= 2 && AllRan(p, i) && Descending(p, i, budget)
    requires p.run(p.rungs[i - 1]) == Ok(prev)
    requires if i == 1 then prevEps.None? else prevEps == Some(PairAt(p, i - 1).eps)
    ensures Explains(p, budget, ClimbFrom(p, budget, i, prev, prevEps))
    decreases |p.rungs| - i
  {
    hide Extrapolate;
    if i == |p.rungs| {
      forall j | 1 <= j < i ensures prevEps.value <= PairAt(p, j).eps { DescendingIsMinimum(p, i, budget, j, i - 1); }
    } else if p.run(p.rungs[i]).Ok? {
      var value := p.run(p.rungs[i]).value;
      var pair := p.Step(prev, value);
      assert AllRan(p, i + 1) && pair == PairAt(p, i);
      if !(prevEps.Some? && pair.eps > prevEps.value) && budget.Some? && pair.eps > budget.value {
        ClimbFromExplains(p, budget, i + 1, value, Some(pair.eps));
      }
    }
  }

  /** An answer is the first pair within the budget (the first pair, without one); an exhausted ladder reports the
      least error over all pairs; a failure or a worsening pair ends the climb where it occurs. */
  lemma ClimbMeans<R, E>(p: Setup<R, E>, budget: Option<real>)
    requires p.Valid()
    ensures Explains(p, budget, Climb(p, budget))
  {
    if |p.rungs| >= 2 {
      assert AllRan(p, 0);
      if p.run(p.rungs[0]).Ok? { ClimbFromExplains(p, budget, 1, p.run(p.rungs[0]).value, None); }
    }
  }

  // ----- a looser budget -----

  /** `loose` asks for no more than `tight`; no budget asks for the least. */
  predicate Looser(loose: Option<real>, tight: Option<real>) {
    loose.None? || (tight.Some? && tight.value <= loose.value)
  }

  lemma {:induction false} LooserFrom<R, E>(p: Setup<R, E>, loose: Option<real>, tight: Option<real>, i: nat,
                                            prev: real, prevEps: Option<real>)
    requires p.Valid() && 1 <= i <= |p.rungs| && Looser(loose, tight)
    requires i == |p.rungs| ==> loose.Some? && tight.Some? && prevEps.Some?
    ensures ClimbFrom(p, loose, i, prev, prevEps).used <= ClimbFrom(p, tight, i, prev, prevEps).used
    ensures ClimbFrom(p, tight, i, prev, prevEps).outcome.Answer? ==>
            ClimbFrom(p, loose, i, prev, prevEps).outcome.Answer?
    decreases |p.rungs| - i
  {
    if i < |p.rungs| && p.run(p.rungs[i]).Ok? {
      var value := p.run(p.rungs[i]).value;
      var pair := p.Step(prev, value);
      var stops := (prevEps.Some? && pair.eps > prevEps.value) || tight.None? || pair.eps <= tight.value;
      if !stops && loose.Some? && pair.eps > loose.value {
        LooserFrom(p, loose, tight, i + 1, value, Some(pair.eps));
      } else if !stops {
        UsesAtLeast(p, tight, i + 1, value, Some(pair.eps));
      }
    }
  }

  lemma {:induction false} UsesAtLeast<R, E>(p: Setup<R, E>, budget: Option<real>, i: nat, prev: real,
                                             prevEps: Option<real>)
    requires p.Valid() && 1 <= i <= |p.rungs| && (i == |p.rungs| ==> budget.Some? && prevEps.Some?)
    ensures ClimbFrom(p, budget, i, prev, prevEps).used >= i
    decreases |p.rungs| - i
  {
    if i < |p.rungs| && p.run(p.rungs[i]).Ok? {
      var value := p.run(p.rungs[i]).value;
      var pair := p.Step(prev, value);
      if !(prevEps.Some? && pair.eps > prevEps.value) && budget.Some? && pair.eps > budget.value {
        UsesAtLeast(p, budget, i + 1, value, Some(pair.eps));
      }
    }
  }

  /** A looser budget never asks for more rungs, and keeps every answer an answer. */
  lemma LooserUsesFewer<R, E>(p: Setup<R, E>, loose: Option<real>, tight: Option<real>)
    requires p.Valid() && Looser(loose, tight)
    ensures Climb(p, loose).used <= Climb(p, tight).used
    ensures Climb(p, tight).outcome.Answer? ==> Climb(p, loose).outcome.Answer?
  {
    if |p.rungs| >= 2 && p.run(p.rungs[0]).Ok? { LooserFrom(p, loose, tight, 1, p.run(p.rungs[0]).value, None); }
  }

  // ----- the cache -----

  /** Stands for the digest of these four. */
  datatype Key<R, B> = Key(solverId: string, version: string, rung: R, box: B)

  class RungCache<R(==), B(==)> {
    var store: map<Key<R, B>, real>
    var hits: nat
    var misses: nat

    constructor ()
      ensures store == map[] && hits == 0 && misses == 0
    {
      store, hits, misses := map[], 0, 0;
    }

    method Get(key: Key<R, B>) returns (value: Option<real>)
      modifies this`hits, this`misses
      ensures value == if key in store then Some(store[key]) else None
      ensures hits == old(hits) + (if key in store then 1 else 0)
      ensures misses == old(misses) + (if key in store then 0 else 1)
    {
      if key in store {
        hits := hits + 1;
        value := Some(store[key]);
      } else {
        misses := misses + 1;
        value := None;
      }
    }

    method Put(key: Key<R, B>, value: real)
      modifies this`store
      ensures store == old(store)[key := value]
    {
      store := store[key := value];
    }
  }

  /** Whom a climb caches for. */
  datatype Owner<B> = Owner(solverId: string, version: string, box: B)

  function KeyOf<R, B>(o: Owner<B>, rung: R): Key<R, B> {
    Key(o.solverId, o.version, rung, o.box)
  }

  /** Every cached rung of this owner has the value running it would give. */
  ghost predicate Consistent<R(!new), B, E>(p: Setup<R, E>, o: Owner<B>, store: map<Key<R, B>, real>) {
    forall rung :: KeyOf(o, rung) in store ==> p.run(rung) == Ok(store[KeyOf(o, rung)])
  }

  /** The rungs among the first `n` that are not cached, each counted once. */
  function Uncached<R(==), B(==), E>(p: Setup<R, E>, o: Owner<B>, store: map<Key<R, B>, real>, n: nat): nat
    requires n <= |p.rungs|
  {
    if n == 0 then 0
    else
      Uncached(p, o, store, n - 1) +
      if KeyOf(o, p.rungs[n - 1]) in store || p.rungs[n - 1] in p.rungs[..n - 1] then 0 else 1
  }

  /** The cache after the first `n` rungs have been fetched: everything it held, plus exactly these rungs. */
  ghost predicate Filled<R, B, E>(p: Setup<R, E>, o: Owner<B>, before: map<Key<R, B>, real>,
                                  after: map<Key<R, B>, real>, n: nat)
    requires n <= |p.rungs|
  {
    && (forall k :: k in before ==> k in after && after[k] == before[k])
    && (forall j :: 0 <= j < n ==> KeyOf(o, p.rungs[j]) in after)
    && (forall k :: k in after && k !in before ==> exists j :: 0 <= j < n && k == KeyOf(o, p.rungs[j]))
  }

  lemma {:induction false} NothingUncached<R, B, E>(p: Setup<R, E>, o: Owner<B>, store: map<Key<R, B>, real>, n: nat)
    requires n <= |p.rungs| && forall j :: 0 <= j < n ==> KeyOf(o, p.rungs[j]) in store
    ensures Uncached(p, o, store, n) == 0
  {
    if n > 0 { NothingUncached(p, o, store, n - 1); }
  }

  // ----- the climb as it runs -----

  /** The cached value of a rung, or a run of it that is then cached. */
  method Fetch<R(==, !new), B(==), E>(p: Setup<R, E>, o: Owner<B>, cache: RungCache?<R, B>, rung: R)
    returns (r: Result<real, E>)
    requires cache != null ==> Consistent(p, o, cache.store)
    modifies if cache == null then {} else {cache}
    ensures r == p.run(rung)
    ensures cache != null ==> Consistent(p, o, cache.store)
    ensures cache != null ==>
              var k := KeyOf(o, rung);
              && cache.store == (if r.Ok? then old(cache.store)[k := r.value] else old(cache.store))
              && cache.hits == old(cache.hits) + (if k in old(cache.store) then 1 else 0)
              && cache.misses == old(cache.misses) + (if k in old(cache.store) then 0 else 1)
  {
    if cache == null {
      return p.run(rung);
    }
    var key := KeyOf(o, rung);
    var cached := cache.Get(key);
    if cached.Some? {
      assert cache.store[key := cached.value] == cache.store;
      return Ok(cached.value);
    }
    r := p.run(rung);
    if r.Ok? {
      cache.Put(key, r.value);
    }
  }

  /** What the first `n` fetches leave behind, when all of them but possibly the last have run. */
  ghost predicate Fetched<R(!new), B, E>(p: Setup<R, E>, o: Owner<B>, before: map<Key<R, B>, real>,
                                         after: map<Key<R, B>, real>, n: nat, fetches: int, misses: int)
    requires n <= |p.rungs|
  {
    Consistent(p, o, after) && Filled(p, o, before, after, n) && fetches == n && misses == Uncached(p, o, before, n)
  }

  lemma FetchOne<R(!new), B, E>(p: Setup<R, E>, o: Owner<B>, before: map<Key<R, B>, real>, store: map<Key<R, B>, real>,
                                n: nat, fetches: int, misses: int)
    requires n < |p.rungs| && Fetched(p, o, before, store, n, fetches, misses)
    ensures var k := KeyOf(o, p.rungs[n]);
            var missed := if k in store then 0 else 1;
            && Uncached(p, o, before, n + 1) == misses + missed
            && (p.run(p.rungs[n]).Ok? ==>
                  Filled(p, o, before, store[k := p.run(p.rungs[n]).value], n + 1))
  {
    var k := KeyOf(o, p.rungs[n]);
    assert k in store <==> k in before || p.rungs[n] in p.rungs[..n] by {
      if k in store && k !in before {
        var j :| 0 <= j < n && k == KeyOf(o, p.rungs[j]);
        assert p.rungs[..n][j] == p.rungs[n];
      }
      if p.rungs[n] in p.rungs[..n] {
        var j :| 0 <= j < n && p.rungs[..n][j] == p.rungs[n];
        assert KeyOf(o, p.rungs[j]) in store;
      }
    }
    assert k in store ==> p.run(p.rungs[n]) == Ok(store[k]);
  }

  /** How a climb leaves the cache: consistent, holding what it held and exactly the rungs that ran, with one hit or
      miss per rung asked for and a miss only for the first request of a rung not cached before. */
  ghost predicate Settled<R(!new), B, E>(p: Setup<R, E>, o: Owner<B>, before: map<Key<R, B>, real>,
                                         after: map<Key<R, B>, real>, c: Climbed<E>, fetches: int, misses: int)
  {
    && c.used <= |p.rungs| && Consistent(p, o, after)
    && Filled(p, o, before, after, if c.outcome.Failed? && c.used > 0 then c.used - 1 else c.used)
    && fetches == c.used && misses == Uncached(p, o, before, c.used)
  }

  /** The ladder climb. With or without a consistent cache it answers what the uncached climb answers. */
  method ClimbRichardsonLadder<R(==, !new), B(==), E>(p: Setup<R, E>, budget: Option<real>, o: Owner<B>,
                                                      cache: RungCache?<R, B>)
    returns (c: Climbed<E>)
    requires p.Valid() && (cache != null ==> Consistent(p, o, cache.store))
    modifies if cache == null then {} else {cache}
    ensures c == Climb(p, budget)
    ensures cache != null ==>
              Settled(p, o, old(cache.store), cache.store, c,
                      cache.hits + cache.misses - old(cache.hits + cache.misses), cache.misses - old(cache.misses))
  {
    hide Consistent, Filled, Uncached;
    if |p.rungs| < 2 {
      if cache != null { NothingAsked(p, o, cache.store); }
      return Climbed(TooFewRungs, 0);
    }
    if cache != null { NothingFetched(p, o, cache.store); }
    var first := Fetch(p, o, cache, p.rungs[0]);
    if first.Err? {
      return Climbed(Failed(first.error), 1);
    }
    var prevValue := first.value;
    var prevEps: Option<real> := None;
    for i := 1 to |p.rungs|
      invariant i == |p.rungs| ==> budget.Some? && prevEps.Some?
      invariant ClimbFrom(p, budget, i, prevValue, prevEps) == Climb(p, budget)
      invariant cache != null ==>
                  Fetched(p, o, old(cache.store), cache.store, i,
                          cache.hits + cache.misses - old(cache.hits + cache.misses), cache.misses - old(cache.misses))
    {
      if cache != null {
        FetchOne(p, o, old(cache.store), cache.store, i, cache.hits + cache.misses - old(cache.hits + cache.misses),
                 cache.misses - old(cache.misses));
      }
      var current := Fetch(p, o, cache, p.rungs[i]);
      if current.Err? {
        return Climbed(Failed(current.error), i + 1);
      }
      var value := current.value;
      var pair := p.Step(prevValue, value);
      if prevEps.Some? && pair.eps > prevEps.value {
        return Climbed(NonMonotone(i), i + 1);
      }
      if budget.None? {
        return Climbed(Answer(pair.extrapolated, pair.eps, i + 1), i + 1);
      }
      if pair.eps <= budget.value {
        return Climbed(Answer(pair.extrapolated, pair.eps, i + 1), i + 1);
      }
      prevValue, prevEps := value, Some(pair.eps);
    }
    return Climbed(LadderExhausted(prevEps.value, budget.value, |p.rungs|), |p.rungs|);
  }

  lemma NothingAsked<R(!new), B, E>(p: Setup<R, E>, o: Owner<B>, store: map<Key<R, B>, real>)
    requires Consistent(p, o, store)
    ensures Settled(p, o, store, store, Climbed(TooFewRungs, 0), 0, 0)
  {
  }

  lemma NothingFetched<R(!new), B, E>(p: Setup<R, E>, o: Owner<B>, store: map<Key<R, B>, real>)
    requires |p.rungs| > 0 && Consistent(p, o, store)
    ensures Fetched(p, o, store, store, 0, 0, 0)
    ensures var k := KeyOf(o, p.rungs[0]);
            && Uncached(p, o, store, 0) == 0 && Filled(p, o, store, store, 0)
            && Uncached(p, o, store, 1) == (if k in store then 0 else 1)
            && (p.run(p.rungs[0]).Ok? ==> Filled(p, o, store, store[k := p.run(p.rungs[0]).value], 1))
  {
    FetchOne(p, o, store, store, 0, 0, 0);
  }

  /** Climbing again with a looser budget reruns nothing: every rung it asks for that ran is cached already. */
  lemma LooserRerunsNothing<R(!new), B, E>(p: Setup<R, E>, o: Owner<B>, before: map<Key<R, B>, real>,
                                           after: map<Key<R, B>, real>,
                                           tight: Option<real>, loose: Option<real>, fetches: int, misses: int)
    requires p.Valid() && Looser(loose, tight) && Settled(p, o, before, after, Climb(p, tight), fetches, misses)
    requires !Climb(p, loose).outcome.Failed?
    ensures Uncached(p, o, after, Climb(p, loose).used) == 0
  {
    LooserUsesFewer(p, loose, tight);
    ClimbMeans(p, tight);
    ClimbMeans(p, loose);
    hide Climb;
    NothingUncached(p, o, after, Climb(p, loose).used);
  }

  // ----- several owners on one cache -----

  /** A climb leaves every other owner's share of the cache as it was, and so consistent with that owner's runs. */
  lemma OthersStayConsistent<R(!new), B, E>(p: Setup<R, E>, o: Owner<B>, before: map<Key<R, B>, real>,
                                            after: map<Key<R, B>, real>, c: Climbed<E>, fetches: int, misses: int,
                                            q: Setup<R, E>, other: Owner<B>)
    requires Settled(p, o, before, after, c, fetches, misses) && other != o && Consistent(q, other, before)
    ensures Consistent(q, other, after)
    ensures forall rung :: KeyOf(other, rung) in after <==> KeyOf(other, rung) in before
  {
    forall rung: R
      ensures KeyOf(other, rung) in after <==> KeyOf(other, rung) in before
      ensures KeyOf(other, rung) in after ==> after[KeyOf(other, rung)] == before[KeyOf(other, rung)]
    {
      assert forall j :: 0 <= j < |p.rungs| ==> KeyOf(other, rung) != KeyOf(o, p.rungs[j]);
    }
  }

  /** One climb of a session: who climbs, and the budget asked for. */
  datatype Request<B> = Request(owner: Owner<B>, budget: Option<real>)

  /** The caches between the climbs of a session; `setups` says what each owner runs. */
  ghost predicate Session<R(!new), B, E>(setups: Owner<B> -> Setup<R, E>, rs: seq<Request<B>>,
                                         stores: seq<map<Key<R, B>, real>>)
  {
    && |stores| == |rs| + 1 && stores[0] == map[]
    && forall k :: 0 <= k < |rs| && setups(rs[k].owner).Valid() &&
                   Consistent(setups(rs[k].owner), rs[k].owner, stores[k]) ==>
         ClimbLeaves(setups(rs[k].owner), rs[k], stores[k], stores[k + 1])
  }

  /** `after` is a cache that the climb of `r` leaves behind from `before`. */
  ghost predicate ClimbLeaves<R(!new), B, E>(p: Setup<R, E>, r: Request<B>, before: map<Key<R, B>, real>,
                                             after: map<Key<R, B>, real>)
    requires p.Valid()
  {
    exists fetches, misses :: Settled(p, r.owner, before, after, Climb(p, r.budget), fetches, misses)
  }

  /** On one cache that starts empty, any climbs by any owners in any order leave it consistent for every owner; so
      each of them answers what its owner's climb answers without a cache. */
  lemma {:induction false} SessionStaysConsistent<R(!new), B(!new), E>(setups: Owner<B> -> Setup<R, E>,
                                                                       rs: seq<Request<B>>,
                                                                       stores: seq<map<Key<R, B>, real>>, k: nat,
                                                                       o: Owner<B>)
    requires (forall x :: setups(x).Valid()) && Session(setups, rs, stores) && k <= |rs|
    ensures Consistent(setups(o), o, stores[k])
  {
    if k > 0 {
      var r := rs[k - 1];
      SessionStaysConsistent(setups, rs, stores, k - 1, o);
      SessionStaysConsistent(setups, rs, stores, k - 1, r.owner);
      hide Climb, Consistent, Settled;
      assert ClimbLeaves(setups(r.owner), r, stores[k - 1], stores[k]);
      var fetches, misses :| Settled(setups(r.owner), r.owner, stores[k - 1], stores[k],
                                     Climb(setups(r.owner), r.budget), fetches, misses);
      LeftConsistent(setups(r.owner), r, stores[k - 1], stores[k], fetches, misses, setups(o), o);
    }
  }

  lemma LeftConsistent<R(!new), B, E>(p: Setup<R, E>, r: Request<B>, before: map<Key<R, B>, real>,
                                      after: map<Key<R, B>, real>, fetches: int, misses: int,
                                      q: Setup<R, E>, o: Owner<B>)
    requires p.Valid() && Settled(p, r.owner, before, after, Climb(p, r.budget), fetches, misses)
    requires Consistent(q, o, before) && (o == r.owner ==> q == p)
    ensures Consistent(q, o, after)
  {
    if o != r.owner {
      OthersStayConsistent(p, r.owner, before, after, Climb(p, r.budget), fetches, misses, q, o);
    }
  }

  /** Two owners climb in turn on one fresh cache; neither sees the other's rungs. */
  method ClimbInTurn<R(==, !new), B(==), E>(p: Setup<R, E>, o: Owner<B>, budget: Option<real>, q: Setup<R, E>,
                                            other: Owner<B>, otherBudget: Option<real>)
    returns (c: Climbed<E>, d: Climbed<E>)
    requires p.Valid() && q.Valid() && o != other
    ensures c == Climb(p, budget) && d == Climb(q, otherBudget)
  {
    hide Settled, Climb;
    var cache := new RungCache<R, B>();
    assert Consistent(p, o, cache.store) && Consistent(q, other, cache.store);
    c := ClimbRichardsonLadder(p, budget, o, cache);
    OthersStayConsistent(p, o, map[], cache.store, c, cache.hits + cache.misses, cache.misses, q, other);
    d := ClimbRichardsonLadder(q, otherBudget, other, cache);
  }
}
