/** One-sided solvers on returned routes: exactly when they can only be the last step. */
module PlanOneSided {
  import opened Wrappers
  import opened Intervals
  import opened Propagation
  import opened PlanModel
  import opened PlanLemmas
  import opened PlanOptimal
  import opened PlanRoute
  import opened PlanOrder
  import opened PlanTermination
  import opened CycleCheck
  import opened Planner
  import opened PlanFeeds
  import opened PlanCost
  import opened PlanArena
  import opened PlanStage
  import Names

  /** A participating one-sided solver `a` feeds an input `u` of a solver `z` that makes the target. */
  ghost predicate ForwardsVia(P: Problem, a: nat, z: nat, u: string) {
    && a < |P.solvers| && P.solvers[a].conservativeFor != Both && Feeds(P, a, u)
    && Makes(P, z, P.target) && u in P.solvers[z].inputs
  }

  ghost predicate Forwards(P: Problem) {
    exists a, z, u :: ForwardsVia(P, a, z, u)
  }

  /** Only the last step of the route may be one-sided. */
  ghost predicate OneSidedLast(P: Problem, r: Route) {
    forall j, i :: 0 <= j < |r.steps| - 1 && 0 <= i < |P.solvers| && P.solvers[i].id == r.steps[j].solverId ==>
      P.solvers[i].conservativeFor == Both
  }

  /** A request over `P`'s solvers, target and sense that gets past the guards. */
  ghost predicate Asks(P: Problem, Q: Problem) {
    SameShape(P, Q) && WfProblem(Q) && Searches(Q)
  }

  ghost predicate AnsweredOneSidedLast(Q: Problem, limit: nat)
    requires WfProblem(Q)
  {
    match PlanAnswer(Q, limit)
    case Answered(Ok(r)) => OneSidedLast(Q, r)
    case _ => true
  }

  // ----- where the rule holds -----

  /** If no participating one-sided solver feeds the target through another, every route has its one-sided step last. */
  lemma RuleHolds(P: Problem, limit: nat)
    requires WfProblem(P) && UniqueIds(P) && Searches(P) && !Forwards(P)
    ensures AnsweredOneSidedLast(P, limit)
  {
    hide WfProblem, UniqueIds, Searches, Forwards, OneSidedLast, PlanAnswer;
    if PlanAnswer(P, limit).Answered? && PlanAnswer(P, limit).result.Ok? {
      AnswerOfRun(P, limit);
      SearchingTarget(P);
      var id, order := RouteListing(P, limit);
      var arena := Run(P, Initial(P), limit).arena;
      ListedOneSided(P, arena, id, order);
    }
  }

  /** The returned route lists the steps that feed the winner's step, which comes last. */
  lemma RouteListing(P: Problem, limit: nat) returns (id: nat, order: seq<nat>)
    requires WfProblem(P) && P.target !in P.known && Run(P, Initial(P), limit).Success?
    ensures var w, arena := Run(P, Initial(P), limit).winner, Run(P, Initial(P), limit).arena;
            && ArenaOk(P, arena) && Wired(arena) && id < |arena| && P.target in arena[id].outputs
            && w == OutLabel(arena[id].outputs[P.target], NodeCost(arena[id]), id) && w.Error() <= P.budget
            && Listing(arena, id, order) && RouteOf(P, limit).steps == StepsOf(arena, order)
            && RouteOf(P, limit).totalCost == CostSum(StepsOf(arena, order))
  {
    hide *;
    InitialInRange(P);
    id := WinnerNode(P, limit);
    var w, arena := Run(P, Initial(P), limit).winner, Run(P, Initial(P), limit).arena;
    RouteOfIs(P, limit);
    ArenaPriced(P, arena);
    order := WalkFrom(arena, id);
    ListingOf(arena, id);
    RouteForIs(P, w, arena);
  }

  lemma ListingOf(arena: seq<StepNode>, id: nat)
    requires Priced(arena) && id < |arena|
    ensures Wired(arena) && Listing(arena, id, WalkFrom(arena, id))
  {
    WalkIsExact(arena, id);
    hide WalkFrom, Feeders, Supplied;
  }

  lemma RouteForIs(P: Problem, w: Label, arena: seq<StepNode>)
    requires w.node.Some? && w.node.value < |arena| && Wired(arena)
    requires forall k :: k in WalkFrom(arena, w.node.value) ==> k < |arena|
    ensures var steps := StepsOf(arena, WalkFrom(arena, w.node.value));
            RouteFor(P, w, arena).steps == steps && RouteFor(P, w, arena).totalCost == CostSum(steps)
  {
    hide WalkFrom;
  }

  /** The steps that feed step `id`, each once, `id` last. */
  ghost predicate Listing(arena: seq<StepNode>, id: nat, order: seq<nat>) {
    && Wired(arena) && id < |arena| && order != [] && order[|order| - 1] == id
    && (forall k :: k in order <==> k in Feeders(arena, id))
    && (forall i, j :: 0 <= i < j < |order| ==> order[i] != order[j])
    && (forall k :: k in order ==> k < |arena|)
  }

  lemma ListedOneSided(P: Problem, arena: seq<StepNode>, id: nat, order: seq<nat>)
    requires ArenaOk(P, arena) && Listing(arena, id, order) && P.target in arena[id].outputs && UniqueIds(P) &&
             !Forwards(P)
    ensures forall r: Route :: r.steps == StepsOf(arena, order) ==> OneSidedLast(P, r)
  {
    var steps := StepsOf(arena, order);
    forall j, i | 0 <= j < |steps| - 1 && 0 <= i < |P.solvers| && P.solvers[i].id == steps[j].solverId
      ensures P.solvers[i].conservativeFor == Both
    {
      var k := order[j];
      assert k in order && k != id;
      OneListed(P, arena, id, k, i);
    }
  }

  lemma OneListed(P: Problem, arena: seq<StepNode>, id: nat, k: nat, i: nat)
    requires ArenaOk(P, arena) && Wired(arena) && id < |arena| && P.target in arena[id].outputs
    requires UniqueIds(P) && !Forwards(P) && k < |arena| && k in Feeders(arena, id) && k != id
    requires i < |P.solvers| && P.solvers[i].id == arena[k].solverId
    ensures P.solvers[i].conservativeFor == Both
  {
    hide ArenaOk, Feeders, Feeds, Usable, NodeCost, Admitted;
    NodeIsOk(P, arena, k);
    NodeIsOk(P, arena, id);
    var s: nat :| Applies(P, arena[k], s);
    assert s == i;
    var z: nat :| Applies(P, arena[id], z);
    var u := FeederFeeds(P, arena, id, k, i);
    AppliesMakes(P, arena[id], z, P.target);
    assert P.solvers[i].conservativeFor != Both ==> ForwardsVia(P, i, z, u);
  }

  // ----- where it does not -----

  /** `a` and everything below it are free, everything else has a price. */
  ghost function ForwardPrices(P: Problem, a: nat): (prices: seq<real>)
    ensures |prices| == |P.solvers|
  {
    seq(|P.solvers|, i requires 0 <= i < |P.solvers| => if i == a || Below(P, a, i) then 0.0 else 1.0)
  }

  /** The request: `a`'s line is free, and at the target only `z` is exact. */
  ghost function Forwarding(P: Problem, a: nat, z: nat): Problem {
    Stage(P, Sources(P, a), ForwardPrices(P, a), {z})
  }

  /** What `a` feeds below the target can be had for nothing. */
  lemma {:induction false} FreePort(P: Problem, rank: string -> nat, a: nat, z: nat, r: string)
    requires StageOk(P, rank, a, ForwardPrices(P, a)) && Feeds(P, a, r) && rank(r) < rank(P.target)
    ensures Derivable(Forwarding(P, a, z), r, Part(ORIGIN, 0.0))
    decreases rank(r), 1
  {
    hide Feeds, Derivable, Forwarding;
    var j := LastFeeder(P, a, r);
    assert j == a || Below(P, a, j);
    FreeStep(P, rank, a, z, j, r);
  }

  /** So can what a solver on `a`'s line makes of it. */
  lemma {:induction false} FreeStep(P: Problem, rank: string -> nat, a: nat, z: nat, j: nat, r: string)
    requires StageOk(P, rank, a, ForwardPrices(P, a)) && Makes(P, j, r) && (j == a || Below(P, a, j))
    requires rank(r) <= rank(P.target) && (r == P.target ==> j == z)
    ensures Derivable(Forwarding(P, a, z), r, Part(ORIGIN, 0.0))
    decreases rank(r), 0
  {
    var prices := ForwardPrices(P, a);
    var tie := map q | q in P.solvers[j].inputs :: Part(ORIGIN, 0.0);
    forall q | q in tie ensures rank(q) < rank(r) {}
    hide Feeds, Derivable, Stage, Below, Ranked, Sources, Usable;
    forall q | q in tie ensures Derivable(Forwarding(P, a, z), q, Part(ORIGIN, 0.0)) {
      if Feeds(P, a, q) {
        FreePort(P, rank, a, z, q);
      } else {
        InputSource(P, a, j, q);
        StageKnown(P, Sources(P, a), prices, {z}, q);
      }
    }
    MadeExactly(P, Sources(P, a), prices, {z}, j, r, tie);
    ZeroSum(Names.Sorted(Costs(tie).Keys), Costs(tie));
  }

  /** Among steps that all lie on `a`'s line, `a` itself is used. */
  lemma {:induction false} LineStarts(P: Problem, arena: seq<StepNode>, a: nat, z: nat, id: nat) returns (k: nat)
    requires ArenaOk(Forwarding(P, a, z), arena) && Wired(arena) && id < |arena|
    requires forall m, i: nat :: m in Feeders(arena, id) && m < |arena| && Applies(Forwarding(P, a, z), arena[m], i) ==>
                                   i == a || Below(P, a, i)
    ensures k in Feeders(arena, id) && k < |arena| && Applies(Forwarding(P, a, z), arena[k], a)
    decreases id
  {
    var Q := Forwarding(P, a, z);
    hide ArenaOk, Forwarding, Feeds, Usable, NodeCost, Admitted, Below, Applies;
    NodeIsOk(Q, arena, id);
    var i: nat :| Applies(Q, arena[id], i);
    k := id;
    if i != a {
      var u := TakesFed(P, arena[id], a, z, i);
      assert Grounded(Q, arena, id, u, arena[id].inputs[u]);
      NotKnown(P, a, z, u);
      var m := arena[id].inputs[u].node.value;
      ChildFeeders(arena, id, u);
      k := LineStarts(P, arena, a, z, m);
    }
  }

  lemma TakesFed(P: Problem, n: StepNode, a: nat, z: nat, i: nat) returns (u: string)
    requires Applies(Forwarding(P, a, z), n, i) && Below(P, a, i)
    ensures u in n.inputs && Feeds(P, a, u)
  {
    hide Feeds, Usable, Admitted, Sources;
    u :| u in P.solvers[i].inputs && Feeds(P, a, u);
    StageSolver(P, Sources(P, a), ForwardPrices(P, a), {z}, i);
  }

  lemma NotKnown(P: Problem, a: nat, z: nat, u: string)
    requires Feeds(P, a, u)
    ensures u !in Forwarding(P, a, z).known
  {
    hide Feeds;
  }

  lemma {:induction false} FreeSteps(steps: seq<RouteStep>, j: nat)
    requires j < |steps| && CostSum(steps) <= 0.0 && forall k :: 0 <= k < |steps| ==> steps[k].cost >= 0.0
    ensures steps[j].cost == 0.0
  {
    var n := |steps| - 1;
    CostsAddUp(steps[..n]);
    if j < n { FreeSteps(steps[..n], j); }
  }

  lemma {:induction false} CostsAddUp(steps: seq<RouteStep>)
    requires forall k :: 0 <= k < |steps| ==> steps[k].cost >= 0.0
    ensures CostSum(steps) >= 0.0
  {
    if steps != [] { CostsAddUp(steps[..|steps| - 1]); }
  }

  lemma FreeIsOnLine(P: Problem, n: StepNode, a: nat, z: nat, i: nat)
    requires Applies(Forwarding(P, a, z), n, i) && n.ownCost == 0.0
    ensures i == a || Below(P, a, i)
  {
    hide Usable, Admitted, Below, Sources;
    StageSolver(P, Sources(P, a), ForwardPrices(P, a), {z}, i);
  }

  /** All steps of a route that costs nothing lie on `a`'s line. */
  lemma FreeRoute(P: Problem, arena: seq<StepNode>, a: nat, z: nat, id: nat, order: seq<nat>)
    requires WfProblem(Forwarding(P, a, z)) && ArenaOk(Forwarding(P, a, z), arena) && Listing(arena, id, order)
    requires CostSum(StepsOf(arena, order)) <= 0.0
    ensures forall m, i: nat :: m in Feeders(arena, id) && m < |arena| && Applies(Forwarding(P, a, z), arena[m], i) ==>
                                  i == a || Below(P, a, i)
  {
    var steps := StepsOf(arena, order);
    hide Forwarding, Below, Applies, Feeders, CostSum, ArenaOk, WfProblem;
    forall k | 0 <= k < |steps| ensures steps[k].cost >= 0.0 {
      assert order[k] in order;
      ArenaCosts(Forwarding(P, a, z), arena, order[k]);
    }
    forall m, i: nat | m in Feeders(arena, id) && m < |arena| && Applies(Forwarding(P, a, z), arena[m], i)
      ensures i == a || Below(P, a, i)
    {
      assert m in order;
      var j: nat :| j < |order| && order[j] == m;
      FreeSteps(steps, j);
      FreeIsOnLine(P, arena[m], a, z, i);
    }
  }

  lemma StageSize(P: Problem, a: nat, z: nat)
    ensures |Forwarding(P, a, z).solvers| == |P.solvers| && Forwarding(P, a, z).target == P.target
    ensures Forwarding(P, a, z).budget == 1.0
  {
  }

  /** On that request the search ends with a route on which `a` runs before the last step. */
  lemma RuleFails(P: Problem, rank: string -> nat, a: nat, z: nat, u: string) returns (limit: nat)
    requires Ranked(P, rank) && UniqueIds(P) && !HasCycle(P.solvers) && ForwardsVia(P, a, z, u)
    ensures Asks(P, Forwarding(P, a, z)) && PlanAnswer(Forwarding(P, a, z), limit).Answered?
    ensures !AnsweredOneSidedLast(Forwarding(P, a, z), limit)
  {
    hide *;
    var Q := Forwarding(P, a, z);
    ViaFacts(P, rank, a, z, u);
    StageSearches(P, rank, a, ForwardPrices(P, a), {z});
    ForwardingIs(P, a, z);
    AsksBy(P, Q);
    limit := SearchBound(Q) + 1;
    RankedRequestsAnswered(Q, rank, limit);
    FreeStep(P, rank, a, z, z, P.target);
    StageSize(P, a, z);
    FreeAnswer(Q, limit);
    AnswerOfRun(Q, limit);
    SearchingTarget(Q);
    InitialInRange(Q);
    var id, order := RouteListing(Q, limit);
    var arena := Run(Q, Initial(Q), limit).arena;
    FreeRoute(P, arena, a, z, id, order);
    var k := LineStarts(P, arena, a, z, id);
    StageSize(P, a, z);
    WinnerDiffers(P, arena, a, z, id, k);
    NotLast(P, arena, a, z, id, order, k, RouteOf(Q, limit));
    AnswerNotLast(Q, limit, RouteOf(Q, limit));
  }

  lemma ForwardingIs(P: Problem, a: nat, z: nat)
    ensures Forwarding(P, a, z) == Stage(P, Sources(P, a), ForwardPrices(P, a), {z})
  {
  }

  lemma AsksBy(P: Problem, Q: Problem)
    requires SameShape(P, Q) && WfProblem(Q) && Searches(Q)
    ensures Asks(P, Q)
  {
  }

  lemma AnswerNotLast(Q: Problem, limit: nat, r: Route)
    requires WfProblem(Q) && PlanAnswer(Q, limit) == Answered(Ok(r)) && !OneSidedLast(Q, r)
    ensures !AnsweredOneSidedLast(Q, limit)
  {
    hide PlanAnswer, OneSidedLast;
  }

  lemma ViaFacts(P: Problem, rank: string -> nat, a: nat, z: nat, u: string)
    requires Ranked(P, rank) && UniqueIds(P) && !HasCycle(P.solvers) && ForwardsVia(P, a, z, u)
    ensures StageOk(P, rank, a, ForwardPrices(P, a)) && Makes(P, z, P.target) && Below(P, a, z) && a != z
    ensures a < |P.solvers| && P.solvers[a].conservativeFor != Both
  {
    hide Ranked, UniqueIds, HasCycle, Feeds;
    FeedsOn(P, a, u, z, P.target);
    if a == z { FeedsAbove(P, rank, a, u, u); }
  }

  /** A target that can be had for nothing is answered by a route that costs nothing. */
  lemma FreeAnswer(Q: Problem, limit: nat)
    requires WfProblem(Q) && Searches(Q) && Derivable(Q, Q.target, Part(ORIGIN, 0.0)) && PlanAnswer(Q, limit).Answered?
    requires Q.budget == 1.0
    ensures PlanAnswer(Q, limit).result.Ok? && PlanAnswer(Q, limit).result.value.totalCost <= 0.0
  {
    hide *;
    OriginWithin(Q);
    SucceedsIff(Q, limit);
    CheapAnswer(Q, limit, Part(ORIGIN, 0.0));
  }

  lemma OriginWithin(Q: Problem)
    requires Derivable(Q, Q.target, Part(ORIGIN, 0.0)) && Q.budget == 1.0
    ensures Reachable(Q) && Part(ORIGIN, 0.0).iv.HalfWidth() <= Q.budget
  {
    OriginIsExact();
    hide Derivable, Interval.HalfWidth;
    assert Derivable(Q, Q.target, Part(ORIGIN, 0.0)) && Part(ORIGIN, 0.0).iv == ORIGIN;
  }

  lemma CheapAnswer(Q: Problem, limit: nat, w: Part)
    requires WfProblem(Q) && Searches(Q) && Derivable(Q, Q.target, w) && w.iv.HalfWidth() <= Q.budget
    requires PlanAnswer(Q, limit).Answered? && PlanAnswer(Q, limit).result.Ok?
    ensures PlanAnswer(Q, limit).result.value.totalCost <= w.cost
  {
    AnswerIsExact(Q, limit);
    hide Derivable, PlanAnswer, WfProblem, Searches, LeastReachable, Runs, SomeProvides, Reachable;
  }

  lemma WinnerDiffers(P: Problem, arena: seq<StepNode>, a: nat, z: nat, id: nat, k: nat)
    requires var Q := Forwarding(P, a, z);
             && WfProblem(Q) && ArenaOk(Q, arena) && id < |arena| && k < |arena|
             && P.target in arena[id].outputs && Applies(Q, arena[k], a)
             && OutLabel(arena[id].outputs[P.target], NodeCost(arena[id]), id).Error() <= Q.budget
    requires a != z
    ensures k != id
  {
    hide ArenaOk, WfProblem, Stage, NodeCost, Sources, Applies;
    StageSize(P, a, z);
    if k == id { ExactWins(P, Sources(P, a), ForwardPrices(P, a), {z}, arena, id, a); }
  }

  lemma NotLast(P: Problem, arena: seq<StepNode>, a: nat, z: nat, id: nat, order: seq<nat>, k: nat, r: Route)
    requires Listing(arena, id, order) && k in Feeders(arena, id) && k != id && k < |arena|
    requires Applies(Forwarding(P, a, z), arena[k], a) && r.steps == StepsOf(arena, order)
    requires a < |P.solvers| && P.solvers[a].conservativeFor != Both
    ensures !OneSidedLast(Forwarding(P, a, z), r)
  {
    hide Feeders, Admitted, Usable, Sources;
    StageSolver(P, Sources(P, a), ForwardPrices(P, a), {z}, a);
    assert arena[k].solverId == P.solvers[a].id;
    hide Applies;
    var j: nat :| j < |order| && order[j] == k;
    assert r.steps[j].solverId == arena[k].solverId;
  }

  lemma SameForwards(P: Problem, Q: Problem, a: nat, z: nat, u: string)
    requires SameShape(P, Q) && ForwardsVia(Q, a, z, u)
    ensures ForwardsVia(P, a, z, u)
  {
    hide Feeds;
    SameFeeds(Q, P, a, u);
    assert SameSolver(P.solvers[a], Q.solvers[a]) && SameSolver(P.solvers[z], Q.solvers[z]);
  }

  /** Over a ranked registry every route of every request has its one-sided step last if and only if no participating
      one-sided solver feeds the target through another solver. */
  lemma OneSidedLastIff(P: Problem, rank: string -> nat)
    requires Ranked(P, rank) && UniqueIds(P) && !HasCycle(P.solvers)
    ensures !Forwards(P) <==> forall Q, limit :: Asks(P, Q) ==> AnsweredOneSidedLast(Q, limit)
  {
    hide Ranked, UniqueIds, HasCycle, WfProblem, Searches, ForwardsVia, SameShape, AnsweredOneSidedLast;
    if !Forwards(P) {
      forall Q, limit | Asks(P, Q) ensures AnsweredOneSidedLast(Q, limit) {
        SameIds(P, Q);
        if a, z, u :| ForwardsVia(Q, a, z, u) { SameForwards(P, Q, a, z, u); }
        RuleHolds(Q, limit);
      }
    } else {
      var a, z, u :| ForwardsVia(P, a, z, u);
      var limit := RuleFails(P, rank, a, z, u);
    }
  }

  // ----- the smallest case -----

  /** An upper-bound solver makes the target `t` and also `u` from `k`; a two-sided solver makes `t` from `u`. */
  function Forwarder(k: string, u: string, t: string, before: (TieKey, TieKey) -> bool): Problem {
    Problem([Solver(k, [k], [t, u], Domain(map[], {}), 0.0, map[], Upper),
             Solver(u, [u], [t], Domain(map[], {}), 0.0, map[], Both)], map[], {}, t, 1.0, Upper, before)
  }

  /** With the upper-bound solver loose at `t`, the route runs it first and the two-sided solver last. */
  lemma UpperIsForwarded(k: string, u: string, t: string, before: (TieKey, TieKey) -> bool) returns (limit: nat)
    requires k != u && k != t && u != t
    ensures var P := Forwarder(k, u, t, before);
            && Asks(P, Forwarding(P, 0, 1)) && PlanAnswer(Forwarding(P, 0, 1), limit).Answered?
            && !AnsweredOneSidedLast(Forwarding(P, 0, 1), limit)
  {
    var P := Forwarder(k, u, t, before);
    var rank := (n: string) => if n == k then 0 else if n == u then 1 else 2;
    ForwarderFacts(k, u, t, before, rank);
    hide *;
    limit := RuleFails(P, rank, 0, 1, u);
  }

  lemma ForwarderFacts(k: string, u: string, t: string, before: (TieKey, TieKey) -> bool, rank: string -> nat)
    requires k != u && k != t && u != t && rank(k) == 0 && rank(u) == 1 && rank(t) == 2
    ensures var P := Forwarder(k, u, t, before);
            Ranked(P, rank) && UniqueIds(P) && !HasCycle(P.solvers) && ForwardsVia(P, 0, 1, u)
  {
    var P := Forwarder(k, u, t, before);
    hide Feeds, HasCycle;
    MakerFeeds(P, 0, u);
    if HasCycle(P.solvers) { OneRenaming(k, u, t, before); }
  }

  lemma OneRenaming(k: string, u: string, t: string, before: (TieKey, TieKey) -> bool)
    requires k != u && k != t && u != t
    ensures !HasCycle(Forwarder(k, u, t, before).solvers)
  {
    var solvers := Forwarder(k, u, t, before).solvers;
    if path :| IsCycle(solvers, path) {
      OnlyRenaming(k, u, t, before, path[|path| - 2], path[|path| - 1]);
      OnlyRenaming(k, u, t, before, path[0], path[1]);
    }
  }

  lemma OnlyRenaming(k: string, u: string, t: string, before: (TieKey, TieKey) -> bool, from: string, to: string)
    requires Renames(Forwarder(k, u, t, before).solvers, from, to)
    ensures from == u && to == t
  {
  }
}
