/** Shared steps: exactly which registries let the planner's route cost more than another executable plan. */
module PlanShared {
  import opened Wrappers
  import opened Intervals
  import opened Propagation
  import opened PlanModel
  import opened PlanLemmas
  import opened PlanOptimal
  import opened PlanRoute
  import opened PlanOrder
  import opened PlanTermination
  import opened CycleCheck
  import opened Planner
  import opened PlanFeeds
  import opened PlanCost
  import opened PlanArena
  import opened PlanStage
  import opened PlanDiamond
  import Names

  // ----- what is compared -----

  /** Every solver is two-sided. */
  ghost predicate TwoSided(P: Problem) {
    forall i :: 0 <= i < |P.solvers| ==> P.solvers[i].conservativeFor == Both
  }

  /** `k` and `id` are names that `P` does not use. */
  ghost predicate Fresh(P: Problem, k: string, id: string) {
    forall i :: 0 <= i < |P.solvers| ==>
      k !in P.solvers[i].inputs && k !in P.solvers[i].outputs && id != P.solvers[i].id
  }

  /** A two-sided solver that makes `t` directly from a new port `k`. */
  function Direct(k: string, id: string, t: string): Solver {
    Solver(id, [k], [t], Domain(map[], {}), 0.0, map[], Both)
  }

  /** `P` with that solver added, asked for `t`. */
  function WithDirect(P: Problem, k: string, id: string, t: string): Problem {
    P.(solvers := P.solvers + [Direct(k, id, t)], target := t)
  }

  /** A request that gets past the guards, over `P`'s solvers and a direct one to a port that `P` makes; target, costs,
      accuracies, domains, known ports and budget are free. */
  ghost predicate Extends(P: Problem, Q: Problem, k: string, id: string) {
    && WfProblem(Q) && Searches(Q)
    && exists t :: MadeBySome(P, t) && SameShape(WithDirect(P, k, id, t).(target := Q.target, sense := Q.sense), Q)
  }

  ghost predicate MadeBySome(P: Problem, t: string) {
    exists i: nat :: Makes(P, i, t)
  }

  /** No executable plan is cheaper than the answer. */
  ghost predicate NothingCheaper(Q: Problem, limit: nat)
    requires WfProblem(Q)
  {
    match PlanAnswer(Q, limit)
    case Answered(Ok(r)) => forall steps :: Executable(Q, steps) ==> r.totalCost <= CostSum(steps)
    case _ => true
  }

  // ----- no diamonds: always the cheapest -----

  /** Without diamonds no executable plan is cheaper than the returned route. */
  lemma DiamondFreeIsCheapest(P: Problem, limit: nat)
    requires WfProblem(P) && UniqueIds(P) && Searches(P) && DiamondFree(P)
    ensures NothingCheaper(P, limit)
  {
    hide WfProblem, UniqueIds, Searches, DiamondFree, Executable, CostSum, PlanAnswer;
    if PlanAnswer(P, limit).Answered? && PlanAnswer(P, limit).result.Ok? {
      forall steps | Executable(P, steps)
        ensures PlanAnswer(P, limit).result.value.totalCost <= CostSum(steps)
      {
        PlansAreDerivable(P, steps, limit);
      }
    }
  }

  /** A solver of the extended registry, other than the direct one, is one of `P`'s. */
  lemma OldSolver(P: Problem, Q: Problem, k: string, id: string, t: string, i: nat)
    requires TwoSided(P) && SameShape(WithDirect(P, k, id, t).(target := Q.target, sense := Q.sense), Q)
    requires i <= |P.solvers|
    ensures |Q.solvers| == |P.solvers| + 1 && Usable(Q, i)
    ensures i < |P.solvers| ==> Usable(P, i) && SameSolver(P.solvers[i], Q.solvers[i])
    ensures i == |P.solvers| ==> Q.solvers[i].inputs == [k] && Q.solvers[i].outputs == [t] && Q.solvers[i].id == id
  {
    var R := WithDirect(P, k, id, t).(target := Q.target, sense := Q.sense);
    assert SameSolver(R.solvers[i], Q.solvers[i]);
  }

  /** Nothing makes the new port, so the direct solver can only start a chain. */
  lemma DirectOnlyFirst(P: Problem, Q: Problem, k: string, id: string, t: string, chain: seq<nat>, p: string, n: nat)
    requires TwoSided(P) && Fresh(P, k, id) && t != k
    requires SameShape(WithDirect(P, k, id, t).(target := Q.target, sense := Q.sense), Q)
    requires FeedChain(Q, chain, p) && 0 < n < |chain|
    ensures chain[n] < |P.solvers|
  {
    OldSolver(P, Q, k, id, t, chain[n]);
    OldSolver(P, Q, k, id, t, chain[n - 1]);
    assert Hands(Q, chain[n - 1], chain[n]);
  }

  /** What feeds a port in the extended registry feeds it in `P`, the direct solver standing for a maker `m` of `t`. */
  lemma OldFeeder(P: Problem, Q: Problem, k: string, id: string, t: string, s: nat, p: string, m: nat)
    requires TwoSided(P) && Fresh(P, k, id) && Makes(P, m, t)
    requires SameShape(WithDirect(P, k, id, t).(target := Q.target, sense := Q.sense), Q)
    requires Feeds(Q, s, p)
    ensures Feeds(P, if s < |P.solvers| then s else m, p)
  {
    var chain :| FeedChain(Q, chain, p) && chain[0] == s;
    var head := if s < |P.solvers| then s else m;
    var plain := chain[0 := head];
    assert t in P.solvers[m].outputs && t != k;
    hide SameShape, Fresh, TwoSided, Usable, Hands;
    forall n | 0 < n < |chain| ensures plain[n] < |P.solvers| { DirectOnlyFirst(P, Q, k, id, t, chain, p, n); }
    forall n | 0 <= n < |plain|
      ensures plain[n] < |P.solvers| && Usable(P, plain[n])
    {
      OldSolver(P, Q, k, id, t, plain[n]);
    }
    forall n | 0 < n < |plain| ensures Hands(P, plain[n - 1], plain[n]) {
      assert Hands(Q, chain[n - 1], chain[n]);
      OldHands(P, Q, k, id, t, chain[n - 1], chain[n], m);
    }
    OldSolver(P, Q, k, id, t, chain[|chain| - 1]);
    assert FeedChain(P, plain, p) && plain[0] == head;
  }

  /** What one solver hands an old one, the direct solver standing for a maker `m` of `t`. */
  lemma OldHands(P: Problem, Q: Problem, k: string, id: string, t: string, i: nat, j: nat, m: nat)
    requires TwoSided(P) && Makes(P, m, t) && Hands(Q, i, j) && j < |P.solvers|
    requires SameShape(WithDirect(P, k, id, t).(target := Q.target, sense := Q.sense), Q)
    ensures Hands(P, if i < |P.solvers| then i else m, j)
  {
    OldSize(P, Q, k, id, t);
    OldSolver(P, Q, k, id, t, i);
    OldSolver(P, Q, k, id, t, j);
  }

  /** The direct solver adds no diamond. */
  lemma DirectAddsNone(P: Problem, Q: Problem, k: string, id: string, t: string)
    requires TwoSided(P) && Fresh(P, k, id) && MadeBySome(P, t) && DiamondFree(P)
    requires SameShape(WithDirect(P, k, id, t).(target := Q.target, sense := Q.sense), Q)
    ensures DiamondFree(Q)
  {
    var m: nat :| Makes(P, m, t);
    hide Feeds, SameShape, Fresh, TwoSided;
    forall i: nat, p, q, s: nat ensures !SharesFeeder(Q, i, p, q, s) {
      if SharesFeeder(Q, i, p, q, s) {
        OldSize(P, Q, k, id, t);
        OldSolver(P, Q, k, id, t, i);
        OldFeeder(P, Q, k, id, t, s, p, m);
        OldFeeder(P, Q, k, id, t, s, q, m);
        NoDiamond(P, i, p, q, if s < |P.solvers| then s else m);
      }
    }
  }

  lemma OldSize(P: Problem, Q: Problem, k: string, id: string, t: string)
    requires SameShape(WithDirect(P, k, id, t).(target := Q.target, sense := Q.sense), Q)
    ensures |Q.solvers| == |P.solvers| + 1
  {
  }

  lemma ExtendedIds(P: Problem, Q: Problem, k: string, id: string, t: string)
    requires TwoSided(P) && UniqueIds(P) && Fresh(P, k, id)
    requires SameShape(WithDirect(P, k, id, t).(target := Q.target, sense := Q.sense), Q)
    ensures UniqueIds(Q)
  {
    OldSize(P, Q, k, id, t);
    hide SameShape;
    forall i, j | 0 <= i < j < |Q.solvers| ensures Q.solvers[i].id != Q.solvers[j].id {
      OldSolver(P, Q, k, id, t, i);
      OldSolver(P, Q, k, id, t, j);
    }
  }

  // ----- a diamond: not always the cheapest -----

  /** The registry without renaming cycles, extended and ranked. */
  function LiftRank(rank: string -> nat, k: string): string -> nat {
    (n: string) => if n == k then 0 else rank(n) + 1
  }

  lemma ExtendedRank(P: Problem, rank: string -> nat, k: string, id: string, t: string)
    requires TwoSided(P) && Ranked(P, rank) && Fresh(P, k, id) && MadeBySome(P, t)
    ensures Ranked(WithDirect(P, k, id, t), LiftRank(rank, k)) && !HasCycle(WithDirect(P, k, id, t).solvers)
    ensures TwoSided(WithDirect(P, k, id, t))
  {
    var R := WithDirect(P, k, id, t);
    var m: nat :| Makes(P, m, t);
    forall i, p, o | 0 <= i < |R.solvers| && Usable(R, i) && p in R.solvers[i].inputs && o in R.solvers[i].outputs
      ensures LiftRank(rank, k)(p) < LiftRank(rank, k)(o)
    {
      if i < |P.solvers| {
        assert Usable(P, i) && R.solvers[i] == P.solvers[i] && p != k && o != k;
      } else {
        assert R.solvers[i] == Direct(k, id, t) && p == k && o == t;
      }
    }
    RankedIsAcyclic(R, LiftRank(rank, k));
  }

  /** In a ranked registry of two-sided solvers no chain of renamings closes. */
  lemma {:induction false} RankRises(P: Problem, rank: string -> nat, path: seq<string>, i: nat)
    requires Ranked(P, rank) && TwoSided(P) && IsCycle(P.solvers, path) && 1 <= i < |path|
    ensures rank(path[0]) < rank(path[i])
  {
    assert Renames(P.solvers, path[i - 1], path[i]);
    var s :| s in P.solvers && |s.inputs| == 1 && |s.outputs| == 1 && s.inputs[0] == path[i - 1] &&
      s.outputs[0] == path[i];
    var j: nat :| j < |P.solvers| && P.solvers[j] == s;
    assert Usable(P, j);
    if i > 1 { RankRises(P, rank, path, i - 1); }
  }

  lemma RankedIsAcyclic(P: Problem, rank: string -> nat)
    requires Ranked(P, rank) && TwoSided(P)
    ensures !HasCycle(P.solvers)
  {
    if path :| IsCycle(P.solvers, path) { RankRises(P, rank, path, |path| - 1); }
  }

  lemma KeptFeeder(P: Problem, k: string, id: string, t: string, s: nat, p: string)
    requires TwoSided(P) && Feeds(P, s, p)
    ensures Feeds(WithDirect(P, k, id, t), s, p)
  {
    var R := WithDirect(P, k, id, t);
    var chain :| FeedChain(P, chain, p) && chain[0] == s;
    forall n | 0 < n < |chain| ensures Hands(R, chain[n - 1], chain[n]) {
      assert Hands(P, chain[n - 1], chain[n]);
      assert R.solvers[chain[n]] == P.solvers[chain[n]] && R.solvers[chain[n - 1]] == P.solvers[chain[n - 1]];
    }
    assert Makes(P, chain[|chain| - 1], p) && R.solvers[chain[|chain| - 1]] == P.solvers[chain[|chain| - 1]];
    assert FeedChain(R, chain, p);
  }

  lemma ExtendedIsDiamond(P: Problem, rank: string -> nat, k: string, id: string, i: nat, p: string, q: string, s: nat)
    requires TwoSided(P) && UniqueIds(P) && Ranked(P, rank) && Fresh(P, k, id) && SharesFeeder(P, i, p, q, s)
    ensures var t := P.solvers[i].outputs[0];
            && MadeBySome(P, t)
            && Diamond(WithDirect(P, k, id, t), LiftRank(rank, k), s, i, p, q, |P.solvers|, k)
  {
    var t := P.solvers[i].outputs[0];
    var R := WithDirect(P, k, id, t);
    assert Makes(P, i, t);
    assert Usable(R, i) && Usable(R, |P.solvers|);
    UsableFeeder(P, s, p);
    hide Feeds, Usable;
    KeptFeeder(P, k, id, t, s, p);
    KeptFeeder(P, k, id, t, s, q);
    ExtendedRank(P, rank, k, id, t);
  }

  /** Wherever a solver of a ranked registry joins two ports with a common feeder, there are costs, accuracies and one
      direct solver on which the returned route costs more than an executable plan. */
  lemma SharedStepsCostLess(P: Problem, rank: string -> nat, k: string, id: string, i: nat, p: string, q: string,
                            s: nat)
    returns (Q: Problem, limit: nat)
    requires TwoSided(P) && UniqueIds(P) && Ranked(P, rank) && Fresh(P, k, id) && SharesFeeder(P, i, p, q, s)
    ensures Extends(P, Q, k, id) && !NothingCheaper(Q, limit)
  {
    ExtendedIsDiamond(P, rank, k, id, i, p, q, s);
    var t := P.solvers[i].outputs[0];
    var R := WithDirect(P, k, id, t);
    hide Diamond, Pricing, SameShape, WfProblem, Searches, Executable, CostSum, PlanAnswer, MadeBySome;
    var steps;
    Q := Pricing(R, s, i, |P.solvers|);
    PricingIs(R, s, i, |P.solvers|);
    PricingSense(R, s, i, |P.solvers|);
    steps, limit := DiamondIsDear(R, LiftRank(rank, k), s, i, p, q, |P.solvers|, k);
    assert R.(target := Q.target, sense := Q.sense) == R;
  }

  lemma PricingSense(R: Problem, s: nat, i: nat, n: nat)
    ensures Pricing(R, s, i, n).sense == R.sense
  {
  }

  /** Over a ranked registry of two-sided solvers, every answer of every request with one more direct solver is the
      cheapest executable plan if and only if no solver joins two ports with a common feeder. */
  lemma CheapestIffDiamondFree(P: Problem, rank: string -> nat, k: string, id: string)
    requires TwoSided(P) && UniqueIds(P) && Ranked(P, rank) && Fresh(P, k, id)
    ensures DiamondFree(P) <==> forall Q, limit :: Extends(P, Q, k, id) ==> NothingCheaper(Q, limit)
  {
    hide TwoSided, UniqueIds, Ranked, Fresh, SharesFeeder, NothingCheaper, SameShape, WfProblem, Searches, MadeBySome;
    if DiamondFree(P) {
      forall Q, limit | Extends(P, Q, k, id) ensures NothingCheaper(Q, limit) {
        var t :| MadeBySome(P, t) && SameShape(WithDirect(P, k, id, t).(target := Q.target, sense := Q.sense), Q);
        DirectAddsNone(P, Q, k, id, t);
        ExtendedIds(P, Q, k, id, t);
        DiamondFreeIsCheapest(Q, limit);
      }
    } else {
      var i, p, q, s :| SharesFeeder(P, i, p, q, s);
      var Q, limit := SharedStepsCostLess(P, rank, k, id, i, p, q, s);
    }
  }

  // ----- the smallest case -----

  /** `b` is made from `a`, `c` and `d` from `b`, and `e` from `c` and `d`; each solver is named after its output. */
  function FourSolvers(a: string, b: string, c: string, d: string, e: string,
                       before: (TieKey, TieKey) -> bool): Problem {
    var free := Domain(map[], {});
    Problem([Solver(b, [a], [b], free, 0.0, map[], Both), Solver(c, [b], [c], free, 0.0, map[], Both),
             Solver(d, [b], [d], free, 0.0, map[], Both), Solver(e, [c, d], [e], free, 0.0, map[], Both)],
            map[], {}, e, 1.0, Both, before)
  }

  lemma SmallestDiamond(a: string, b: string, c: string, d: string, e: string, k: string, id: string,
                        before: (TieKey, TieKey) -> bool) returns (Q: Problem, limit: nat)
    requires Names.Distinct([a, b, c, d, e]) && k !in [a, b, c, d, e] && id !in [a, b, c, d, e]
    ensures Extends(FourSolvers(a, b, c, d, e, before), Q, k, id) && !NothingCheaper(Q, limit)
  {
    hide *;
    var P := FourSolvers(a, b, c, d, e, before);
    var rank := (n: string) => if n == a then 0 else if n == b then 1 else if n == c || n == d then 2 else 3;
    AllDiffer(a, b, c, d, e);
    FourShape(a, b, c, d, e, k, id, before);
    FourRanked(a, b, c, d, e, rank, before);
    MakerFeeds(P, 0, b);
    FeedsOn(P, 0, b, 1, c);
    FeedsOn(P, 0, b, 2, d);
    FourShare(P, c, d);
    Q, limit := SharedStepsCostLess(P, rank, k, id, 3, c, d, 0);
  }

  lemma AllDiffer(a: string, b: string, c: string, d: string, e: string)
    requires Names.Distinct([a, b, c, d, e])
    ensures a != b && a != c && a != d && a != e && b != c && b != d && b != e && c != d && c != e && d != e
  {
    var names := [a, b, c, d, e];
    assert names[0] == a && names[1] == b && names[2] == c && names[3] == d && names[4] == e;
  }

  lemma FourShape(a: string, b: string, c: string, d: string, e: string, k: string, id: string,
                  before: (TieKey, TieKey) -> bool)
    requires a != b && a != c && a != d && a != e && b != c && b != d && b != e && c != d && c != e && d != e
    requires k !in [a, b, c, d, e] && id !in [a, b, c, d, e]
    ensures var P := FourSolvers(a, b, c, d, e, before);
            && UniqueIds(P) && TwoSided(P) && Fresh(P, k, id)
            && |P.solvers| == 4 && Usable(P, 3) && P.solvers[3].inputs == [c, d] && P.solvers[3].outputs != []
            && P.solvers[1].inputs == P.solvers[2].inputs == [b] && b in [b]
            && Makes(P, 0, b) && Makes(P, 1, c) && Makes(P, 2, d)
  {
  }

  lemma FourRanked(a: string, b: string, c: string, d: string, e: string, rank: string -> nat,
                   before: (TieKey, TieKey) -> bool)
    requires rank(a) == 0 && rank(b) == 1 && rank(c) == rank(d) == 2 && rank(e) == 3
    ensures Ranked(FourSolvers(a, b, c, d, e, before), rank)
  {
  }

  lemma FourShare(P: Problem, c: string, d: string)
    requires |P.solvers| == 4 && Usable(P, 3) && P.solvers[3].inputs == [c, d] && P.solvers[3].outputs != [] && c != d
    requires Feeds(P, 0, c) && Feeds(P, 0, d)
    ensures SharesFeeder(P, 3, c, d, 0)
  {
    hide Feeds;
  }
}
